/**
 * What the tables remember over whole runs: chained meter logs, distinct correlatives,
 * one cell per shift, and an event table that `register` alone has built.
 */
module OperationalHistory {
  import opened Common
  import opened Tables
  import opened Orchestrator
  import OperationalBlockers
  import opened MeterSync
  import opened AvailabilityReports
  import opened OperationalSteps
  import Faults = FaultReports
  import Orders = WorkOrders
  import Equipments = EquipmentService
  import Bulk = BulkMeterSync
  import Adjustments = MeterAdjustments
  import Lube = LubeReports
  import Timeline = AvailabilityTimeline
  import Sequence
  import Stops = StopTransitions

  // ------------------------------------------------------------- correlatives

  function IssuedUpTo(s: State, tenant: TenantId): nat {
    Sequence.LastNumber(s.counters, tenant, Sequence.FR_DOCUMENT_TYPE)
  }

  /** The correlative of a fault is the one of a number already issued to its tenant. */
  ghost predicate WasIssued(s: State, f: Fault) {
    exists k: nat :: 1 <= k <= IssuedUpTo(s, f.tenant) && f.correlative == Sequence.RfCorrelative(k)
  }

  ghost predicate Correlatives(s: State) {
    && (forall i :: 0 <= i < |s.faults| ==> WasIssued(s, s.faults[i]))
    && (forall i, j :: 0 <= i < j < |s.faults| && s.faults[i].tenant == s.faults[j].tenant ==>
          s.faults[i].correlative != s.faults[j].correlative)
  }

  lemma NextCorrelativeIsNew(s: State, f: Fault, tenant: TenantId)
    requires WasIssued(s, f) && f.tenant == tenant
    ensures f.correlative != Sequence.RfCorrelative(IssuedUpTo(s, tenant) + 1)
  {
    var k: nat :| 1 <= k <= IssuedUpTo(s, tenant) && f.correlative == Sequence.RfCorrelative(k);
    if f.correlative == Sequence.RfCorrelative(IssuedUpTo(s, tenant) + 1) {
      Sequence.FormatInjective(Sequence.FR_PREFIX, "-", k, IssuedUpTo(s, tenant) + 1, Sequence.FR_PAD_WIDTH);
    }
  }

  lemma CorrelativesAfterIssue(s: State, s': State, f: Fault)
    requires Correlatives(s) && s'.faults == s.faults + [f]
    requires s'.counters == Sequence.Incremented(s.counters, f.tenant, Sequence.FR_DOCUMENT_TYPE)
    requires f.correlative == Sequence.RfCorrelative(IssuedUpTo(s, f.tenant) + 1)
    ensures Correlatives(s')
  {
    forall i | 0 <= i < |s'.faults|
      ensures WasIssued(s', s'.faults[i])
    {
      if i < |s.faults| {
        assert WasIssued(s, s.faults[i]);
        var k: nat :| 1 <= k <= IssuedUpTo(s, s.faults[i].tenant)
                      && s.faults[i].correlative == Sequence.RfCorrelative(k);
        assert k <= IssuedUpTo(s', s.faults[i].tenant);
      } else {
        assert IssuedUpTo(s', f.tenant) == IssuedUpTo(s, f.tenant) + 1;
      }
    }
    forall i | 0 <= i < |s.faults| && s.faults[i].tenant == f.tenant
      ensures s.faults[i].correlative != f.correlative
    {
      assert WasIssued(s, s.faults[i]);
      NextCorrelativeIsNew(s, s.faults[i], f.tenant);
    }
  }

  lemma CorrelativesFrame(s: State, s': State)
    requires Correlatives(s) && |s'.faults| == |s.faults|
    requires forall t :: IssuedUpTo(s', t) == IssuedUpTo(s, t)
    requires forall i :: 0 <= i < |s.faults| ==>
               s'.faults[i].tenant == s.faults[i].tenant && s'.faults[i].correlative == s.faults[i].correlative
    ensures Correlatives(s')
  {
  }

  // -------------------------------------------------------------------- cells

  /** One report per tenant, equipment, date and shift. */
  ghost predicate UniqueCells(cells: seq<Cell>) {
    forall i, j :: 0 <= i < j < |cells| ==>
                     !CellAt(cells[i], cells[j].tenant, cells[j].equipmentId, cells[j].date, cells[j].shift)
  }

  // ----------------------------------------------------------------- timeline

  /** The event table is the result of some sequence of `register` calls. */
  ghost predicate Registrable(events: seq<Event>) {
    exists calls: seq<Timeline.Call> :: Timeline.Run(calls) == events
  }

  lemma RegistrableAfterCall(events: seq<Event>, faults: seq<Fault>, input: Timeline.RegisterInput, id: int, createdAt: int)
    requires Registrable(events) && Timeline.Register(events, faults, input, id, createdAt).Registered?
    ensures Registrable(Timeline.Register(events, faults, input, id, createdAt).events)
  {
    var calls: seq<Timeline.Call> :| Timeline.Run(calls) == events;
    var next := calls + [Timeline.Call(input, faults, id, createdAt)];
    assert next[..|next| - 1] == calls;
    assert Timeline.Run(next) == Timeline.Register(events, faults, input, id, createdAt).events;
  }

  // ------------------------------------------------------------- all together

  ghost predicate Recorded(s: State) {
    Chained(s) && Correlatives(s) && UniqueCells(s.cells) && Registrable(s.events)
  }

  lemma EmptyIsRecorded(equipment: map<EquipmentId, Equipment>, counters: map<(TenantId, string), nat>)
    ensures Recorded(State(equipment, [], [], [], [], [], counters, []))
  {
    assert Timeline.Run([]) == [];
  }

  /** Writes that touch only orders, flags, contracts and meter types. */
  lemma RecordedFrame(s: State, s': State)
    requires Recorded(s)
    requires s'.meterLog == s.meterLog && s'.cells == s.cells && s'.events == s.events && s'.counters == s.counters
    requires s.equipment.Keys <= s'.equipment.Keys
    requires forall e :: e in s.equipment ==> s'.equipment[e].currentMeter == s.equipment[e].currentMeter
    requires |s'.faults| == |s.faults|
    requires forall i :: 0 <= i < |s.faults| ==>
               s'.faults[i].tenant == s.faults[i].tenant && s'.faults[i].correlative == s.faults[i].correlative
    ensures Recorded(s')
  {
  }

  lemma RecordedAfterMeter(s: State, c: MeterChange)
    requires Recorded(s) && c.equipmentId in s.equipment && c.oldMeter == s.equipment[c.equipmentId].currentMeter
    ensures Recorded(MeterChanged(s, c))
  {
    MeterChangedChained(s, c);
    CorrelativesFrame(s, MeterChanged(s, c));
  }

  lemma RecordedAfterFlag(s: State, e: EquipmentId, operational: bool)
    requires Recorded(s) && e in s.equipment
    ensures Recorded(WithOperational(s, e, operational))
  {
  }

  lemma RecordedAfterStub(s: State, input: TransitionInput, contract: ContractId)
    requires Recorded(s)
    ensures Recorded(WithStub(s, input, contract))
  {
    ChainedFrame(s, WithStub(s, input, contract));
    CorrelativesAfterIssue(s, WithStub(s, input, contract), Stub(s, input, contract));
  }

  lemma RecordedAfterStop(s: State, input: TransitionInput)
    requires Recorded(s) && input.equipmentId in s.equipment
    ensures StopTransition(s, input).Committed? && Recorded(StopTransition(s, input).state)
  {
    var e := input.equipmentId;
    if FindActiveFault(s, input.tenant, e).None? && s.equipment[e].contract.Some? {
      var contract := s.equipment[e].contract.value;
      RecordedAfterStub(s, input, contract);
      RecordedAfterFlag(WithStub(s, input, contract), e, false);
    } else {
      RecordedAfterFlag(s, e, false);
    }
  }

  lemma RecordedAfterStatusChange(s: State, input: TransitionInput)
    requires Recorded(s) && StatusChange(s, input).Committed?
    ensures Recorded(StatusChange(s, input).state)
  {
    if IsStop(input.newStatus) {
      RecordedAfterStop(s, input);
    } else {
      RecordedAfterFlag(s, input.equipmentId, true);
    }
  }

  lemma RecordedAfterFinish(s: State, who: Caller, dto: ReportDto, cellId: nat, previous: Option<OperationalStatus>,
                            eventAt: int, decision: Option<OperationalBlockers.Decision>, env: Env)
    requires Recorded(s) && dto.equipmentId in s.equipment
    requires Finish(s, who, dto, cellId, previous, eventAt, decision, env).Committed?
    ensures Recorded(Finish(s, who, dto, cellId, previous, eventAt, decision, env).state)
  {
    var input := EventInput(who, dto, cellId, previous, eventAt);
    RegistrableAfterCall(s.events, s.faults, input, env.eventId, env.createdAt);
    var s1 := s.(events := Timeline.Register(s.events, s.faults, input, env.eventId, env.createdAt).events);
    ChainedFrame(s, s1);
    CorrelativesFrame(s, s1);
    var s2 := MeterAdvanced(s1, dto.equipmentId, dto.meterReading, AvailabilityReport, cellId, who.userId);
    if s2 != s1 {
      RecordedAfterMeter(s1, MeterChange(s1.equipment[dto.equipmentId].tenant, dto.equipmentId,
                                         s1.equipment[dto.equipmentId].currentMeter, dto.meterReading.value,
                                         AvailabilityReport, Some(cellId), who.userId));
    }
    RecordedAfterStatusChange(s2, TransitionInput(who.tenant, dto.equipmentId, dto.status, previous, dto.meterReading,
                                                  decision));
  }

  lemma RecordedAfterCells(s: State, cells: seq<Cell>)
    requires Recorded(s) && UniqueCells(cells)
    ensures Recorded(s.(cells := cells))
  {
  }

  lemma StoredCellsUnique(s: State, who: Caller, dto: ReportDto, shift: ShiftType)
    requires UniqueCells(s.cells) && dto.equipmentId in s.equipment
    ensures UniqueCells(Stops.StoredCells(s, who, dto, shift))
  {
  }

  lemma RecordedAfterCreate(s: State, who: Caller, cfg: OpConfig, dto: ReportDto, env: Env)
    requires Recorded(s) && AvailabilityReports.Create(s, who, cfg, dto, env).Committed?
    ensures Recorded(AvailabilityReports.Create(s, who, cfg, dto, env).state)
  {
    var shift := ResolveShift(cfg, dto.shift);
    var date := NormalizeReportDate(dto.reportDate);
    var previous := PreviousFor(s, who, dto, shift, false);
    StoredCellsUnique(s, who, dto, shift);
    var stored := s.(cells := s.cells + [NewCell(s, who, dto, date, shift)]);
    RecordedAfterCells(s, stored.cells);
    RecordedAfterFinish(stored, who, dto, |s.cells|, previous, ShiftStartAt(date, shift, cfg),
                        ReturnDecision(s, who.tenant, dto.equipmentId, dto.status, previous), env);
  }

  lemma RecordedAfterUpsert(s: State, who: Caller, cfg: OpConfig, dto: ReportDto, shift: ShiftType, env: Env)
    requires Recorded(s) && Upsert(s, who, cfg, dto, shift, env).Committed?
    ensures Recorded(Upsert(s, who, cfg, dto, shift, env).state)
  {
    var date := NormalizeReportDate(dto.reportDate);
    var existing := FindCell(s.cells, who.tenant, dto.equipmentId, date, shift);
    var previous := PreviousFor(s, who, dto, shift, true);
    StoredCellsUnique(s, who, dto, shift);
    var stored := s.(cells := Stops.StoredCells(s, who, dto, shift));
    RecordedAfterCells(s, stored.cells);
    RecordedAfterFinish(stored, who, dto, if existing.Some? then existing.value else |s.cells|, previous,
                        if existing.Some? then env.now else ShiftStartAt(date, shift, cfg),
                        ReturnDecision(s, who.tenant, dto.equipmentId, dto.status, previous), env);
  }

  lemma RecordedAfterNewReport(s: State, who: Caller, dto: Faults.FaultDto, contract: ContractId)
    requires Recorded(s) && dto.equipmentId in s.equipment
    ensures Recorded(Faults.Recorded(s, who, dto, contract))
  {
    var e := dto.equipmentId;
    var f := Faults.NewReport(s, who, dto, contract);
    var s1 := s.(faults := s.faults + [f],
                 counters := Sequence.Incremented(s.counters, who.tenant, Sequence.FR_DOCUMENT_TYPE));
    ChainedFrame(s, s1);
    CorrelativesAfterIssue(s, s1, f);
    if dto.meterAtFault.Some? && dto.meterAtFault.value > s1.equipment[e].currentMeter {
      RecordedAfterMeter(s1, MeterChange(s1.equipment[e].tenant, e, s1.equipment[e].currentMeter, dto.meterAtFault.value,
                                         FaultReading, Some(|s.faults|), who.userId));
    }
  }

  lemma RecordedAfterFault(s: State, who: Caller, dto: Faults.FaultDto)
    requires Recorded(s) && Faults.Create(s, who, dto).Committed?
    ensures Recorded(Faults.Create(s, who, dto).state)
  {
    var contract := s.equipment[dto.equipmentId].contract.value;
    RecordedAfterNewReport(s, who, dto, contract);
    RecordedFrame(Faults.Recorded(s, who, dto, contract), Faults.Create(s, who, dto).state);
  }

  lemma RecordedAfterClose(s: State, who: Caller, o: nat, left: bool, meter: Option<int>, confirmed: bool, guards: bool)
    requires Recorded(s) && Orders.Close(s, who, o, left, meter, confirmed, guards).Committed?
    ensures Recorded(Orders.Close(s, who, o, left, meter, confirmed, guards).state)
  {
    var e := s.orders[o].equipmentId;
    var s1 := s.(orders := s.orders[o := s.orders[o].(status := OtClosed)]);
    RecordedFrame(s, s1);
    var s2 := Orders.MetersOnClose(s1, who, o, meter);
    if meter.Some? {
      RecordedAfterMeter(s1, MeterChange(who.tenant, e, s1.equipment[e].currentMeter, meter.value, OrderClosure, Some(o),
                                         who.userId));
    }
    RecordedFrame(s2, Orders.Close(s, who, o, left, meter, confirmed, guards).state);
  }

  /** A new equipment has no log yet, so its first row may start at its initial meter. */
  lemma RecordedAfterNewEquipment(s: State, who: Caller, e: EquipmentId, contract: ContractId, initial: int,
                                  current: int, meterType: MeterType)
    requires Recorded(s) && Equipments.Created(s, who, e, contract, initial, current, meterType).Committed?
    ensures Recorded(Equipments.Created(s, who, e, contract, initial, current, meterType).state)
  {
    var s' := Equipments.Created(s, who, e, contract, initial, current, meterType).state;
    var log, log' := s.meterLog, s'.meterLog;
    CorrelativesFrame(s, s');
    assert forall k :: 0 <= k < |log| ==> log'[k] == log[k] && log[k].equipmentId != e;
    forall i, j | Consecutive(log', i, j)
      ensures log'[j].oldValue == log'[i].newValue
    {
      assert Consecutive(log, i, j);
    }
    forall x, i | x in s'.equipment && IsLast(log', x, i)
      ensures s'.equipment[x].currentMeter == log'[i].newValue
    {
      if x != e {
        assert IsLast(log, x, i);
      }
    }
  }

  lemma RecordedAfterUpdate(s: State, who: Caller, e: EquipmentId, p: Equipments.Patch, guards: bool)
    requires Recorded(s) && Equipments.Updated(s, who, e, p, guards).Committed?
    ensures Recorded(Equipments.Updated(s, who, e, p, guards).state)
  {
    var s1 := s;
    if p.currentMeter.Some? {
      var c := MeterChange(who.tenant, e, s.equipment[e].currentMeter, p.currentMeter.value, ManualEntry, None, who.userId);
      RecordedAfterMeter(s, c);
      s1 := MeterChanged(s, c);
    }
    RecordedFrame(s1, Equipments.WithFields(s1, e, p));
  }

  lemma {:induction false} RecordedAfterBulk(s: State, who: Caller, visible: set<EquipmentId>, items: seq<Bulk.Item>)
    requires Recorded(s)
    ensures Recorded(Bulk.SyncAll(s, who, visible, items).0)
  {
    if items != [] {
      var rest, it := items[..|items| - 1], items[|items| - 1];
      RecordedAfterBulk(s, who, visible, rest);
      var s1 := Bulk.SyncAll(s, who, visible, rest).0;
      var v := Bulk.Judge(s1, who, visible, it);
      if v.Applied? {
        RecordedAfterMeter(s1, MeterChange(who.tenant, it.equipmentId, v.from, v.to, ManualEntry, None, who.userId));
      }
    }
  }

  lemma RecordedAfterAdjustment(s: State, who: Caller, dto: Adjustments.AdjustDto)
    requires Recorded(s) && Adjustments.Adjusted(s, who, dto).Committed?
    ensures Recorded(Adjustments.Adjusted(s, who, dto).state)
  {
    var e := dto.equipmentId;
    var s1 := s.(adjustments := s.adjustments + [Adjustment(e, who.userId, dto.oldValue, dto.newValue)]);
    RecordedFrame(s, s1);
    RecordedAfterMeter(s1, MeterChange(who.tenant, e, s.equipment[e].currentMeter, dto.newValue, ManualEntry,
                                       Some(|s.adjustments|), who.userId));
  }

  lemma RecordedAfterDispatch(s: State, who: Caller, dto: Lube.DispatchDto, warehouseOk: bool, linesOk: bool)
    requires Recorded(s) && Lube.Dispatched(s, who, dto, warehouseOk, linesOk).Committed?
    ensures Recorded(Lube.Dispatched(s, who, dto, warehouseOk, linesOk).state)
  {
    var e := dto.equipmentId;
    var s1 := Lube.Read(s, who, dto);
    if s1 != s {
      RecordedAfterMeter(s, MeterChange(who.tenant, e, s.equipment[e].currentMeter, dto.meterReading.value, ManualEntry,
                                        None, who.userId));
    }
    var s2 := Lube.Dispatched(s, who, dto, warehouseOk, linesOk).state;
    Lube.FaultCounterKept(s.counters, who.tenant);
    ChainedFrame(s1, s2);
    CorrelativesFrame(s1, s2);
  }

  /** The steps that change or create equipment rows. */
  lemma MeterStepRecorded(s: State, step: Step)
    requires Recorded(s)
    requires step.AddEquipment? || step.EditEquipment? || step.SyncMeters? || step.AdjustMeter? || step.DispatchLubricants?
    ensures Recorded(Apply(s, step))
  {
    match step
    case AddEquipment(who, e, contract, initial, current, meterType) =>
      if Equipments.Created(s, who, e, contract, initial, current, meterType).Committed? {
        RecordedAfterNewEquipment(s, who, e, contract, initial, current, meterType);
      }
    case EditEquipment(who, e, patch, guards) =>
      if Equipments.Updated(s, who, e, patch, guards).Committed? { RecordedAfterUpdate(s, who, e, patch, guards); }
    case SyncMeters(who, visible, raw) =>
      if Bulk.BulkSync(s, who, visible, raw).Committed? {
        Bulk.FirstErrorNone(raw);
        RecordedAfterBulk(s, who, visible, Bulk.Merged(raw));
      }
    case AdjustMeter(who, adjustment) =>
      if Adjustments.Adjusted(s, who, adjustment).Committed? { RecordedAfterAdjustment(s, who, adjustment); }
    case DispatchLubricants(who, dispatch, warehouseOk, linesOk) =>
      if Lube.Dispatched(s, who, dispatch, warehouseOk, linesOk).Committed? {
        RecordedAfterDispatch(s, who, dispatch, warehouseOk, linesOk);
      }
  }

  /** The steps that touch orders, links and flags only. */
  lemma OrderStepRecorded(s: State, step: Step)
    requires Recorded(s)
    requires step.EscalateFault? || step.OpenOrder? || step.EditOrderImpact? || step.MoveOrder?
    ensures Recorded(Apply(s, step))
  {
    RecordedFrame(s, Apply(s, step));
  }

  lemma StepRecorded(s: State, step: Step)
    requires Recorded(s)
    ensures Recorded(Apply(s, step))
  {
    match step
    case CreateReport(who, cfg, dto, env) =>
      if AvailabilityReports.Create(s, who, cfg, dto, env).Committed? { RecordedAfterCreate(s, who, cfg, dto, env); }
    case UpsertReport(who, cfg, dto, shift, env) =>
      if Upsert(s, who, cfg, dto, shift, env).Committed? { RecordedAfterUpsert(s, who, cfg, dto, shift, env); }
    case ReportFault(who, fault) =>
      if Faults.Create(s, who, fault).Committed? { RecordedAfterFault(s, who, fault); }
    case EscalateFault(_, _) => OrderStepRecorded(s, step);
    case OpenOrder(_, _, _, _) => OrderStepRecorded(s, step);
    case EditOrderImpact(_, _, _, _) => OrderStepRecorded(s, step);
    case MoveOrder(_, _, _) => OrderStepRecorded(s, step);
    case CloseOrder(who, o, left, meter, confirmed, guards) =>
      if Orders.Close(s, who, o, left, meter, confirmed, guards).Committed? {
        RecordedAfterClose(s, who, o, left, meter, confirmed, guards);
      }
    case _ => MeterStepRecorded(s, step);
  }

  /** Any interleaving of all thirteen kinds of steps, accepted or rejected. */
  lemma {:induction false} RunRecorded(s: State, steps: seq<Step>)
    requires Recorded(s)
    ensures Recorded(Run(s, steps))
  {
    if steps != [] {
      RunRecorded(s, steps[..|steps| - 1]);
      StepRecorded(Run(s, steps[..|steps| - 1]), steps[|steps| - 1]);
    }
  }

  /** No two fault reports of a tenant, M3 or stub, ever share a correlative. */
  lemma RunCorrelativesDistinct(s: State, steps: seq<Step>, i: nat, j: nat)
    requires Recorded(s) && i < j < |Run(s, steps).faults|
    requires Run(s, steps).faults[i].tenant == Run(s, steps).faults[j].tenant
    ensures Run(s, steps).faults[i].correlative != Run(s, steps).faults[j].correlative
  {
    RunRecorded(s, steps);
  }

  /** Events written through reports keep every elapsed time equal to a full recomputation. */
  lemma RunTimelineExact(s: State, steps: seq<Step>)
    requires Recorded(s)
    ensures Run(s, steps).events == Timeline.Recomputed(Run(s, steps).events)
  {
    RunRecorded(s, steps);
    var calls: seq<Timeline.Call> :| Timeline.Run(calls) == Run(s, steps).events;
    Timeline.RepairEqualsRecompute(calls);
  }

  // ------------------------------------------------------------ readings only

  predicate IsReading(step: Step) {
    step.CreateReport? || step.UpsertReport? || step.ReportFault?
  }

  /** The reading a committed report or fault report declares for equipment e. */
  function AcceptedReading(s: State, step: Step, e: EquipmentId): Option<int> {
    match step
    case CreateReport(who, cfg, dto, env) =>
      if dto.equipmentId == e && AvailabilityReports.Create(s, who, cfg, dto, env).Committed? then dto.meterReading else None
    case UpsertReport(who, cfg, dto, shift, env) =>
      if dto.equipmentId == e && Upsert(s, who, cfg, dto, shift, env).Committed? then dto.meterReading else None
    case ReportFault(who, fault) =>
      if fault.equipmentId == e && Faults.Create(s, who, fault).Committed? then fault.meterAtFault else None
    case _ => None
  }

  /** All readings accepted along a run, as a set: their order is forgotten. */
  function AcceptedReadings(s: State, steps: seq<Step>, e: EquipmentId): set<int> {
    if steps == [] then {}
    else
      var rest := steps[..|steps| - 1];
      var r := AcceptedReading(Run(s, rest), steps[|steps| - 1], e);
      AcceptedReadings(s, rest, e) + if r.Some? then {r.value} else {}
  }

  /** The transition touches flags, faults and counters only. */
  lemma TransitionKeepsMeters(s: State, input: TransitionInput, e: EquipmentId)
    requires e in s.equipment && StatusChange(s, input).Committed?
    ensures e in StatusChange(s, input).state.equipment
    ensures StatusChange(s, input).state.equipment[e].currentMeter == s.equipment[e].currentMeter
  {
  }

  lemma FinishMeter(s: State, who: Caller, dto: ReportDto, cellId: nat, previous: Option<OperationalStatus>,
                    eventAt: int, decision: Option<OperationalBlockers.Decision>, env: Env, e: EquipmentId)
    requires dto.equipmentId in s.equipment && e in s.equipment
    requires Finish(s, who, dto, cellId, previous, eventAt, decision, env).Committed?
    ensures var s' := Finish(s, who, dto, cellId, previous, eventAt, decision, env).state;
            e in s'.equipment
            && s'.equipment[e].currentMeter ==
               if dto.equipmentId == e && dto.meterReading.Some?
               then Max(s.equipment[e].currentMeter, dto.meterReading.value) else s.equipment[e].currentMeter
  {
    var input := EventInput(who, dto, cellId, previous, eventAt);
    var s1 := s.(events := Timeline.Register(s.events, s.faults, input, env.eventId, env.createdAt).events);
    var s2 := MeterAdvanced(s1, dto.equipmentId, dto.meterReading, AvailabilityReport, cellId, who.userId);
    TransitionKeepsMeters(s2, TransitionInput(who.tenant, dto.equipmentId, dto.status, previous, dto.meterReading,
                                              decision), e);
  }

  lemma ReadingMeter(s: State, step: Step, e: EquipmentId)
    requires IsReading(step) && e in s.equipment
    ensures var r := AcceptedReading(s, step, e);
            e in Apply(s, step).equipment
            && Apply(s, step).equipment[e].currentMeter ==
               if r.Some? then Max(s.equipment[e].currentMeter, r.value) else s.equipment[e].currentMeter
  {
    match step
    case CreateReport(who, cfg, dto, env) =>
      if AvailabilityReports.Create(s, who, cfg, dto, env).Committed? {
        var shift := ResolveShift(cfg, dto.shift);
        var date := NormalizeReportDate(dto.reportDate);
        var previous := PreviousFor(s, who, dto, shift, false);
        FinishMeter(s.(cells := s.cells + [NewCell(s, who, dto, date, shift)]), who, dto, |s.cells|, previous,
                    ShiftStartAt(date, shift, cfg),
                    ReturnDecision(s, who.tenant, dto.equipmentId, dto.status, previous), env, e);
      }
    case UpsertReport(who, cfg, dto, shift, env) =>
      if Upsert(s, who, cfg, dto, shift, env).Committed? {
        var existing := FindCell(s.cells, who.tenant, dto.equipmentId, NormalizeReportDate(dto.reportDate), shift);
        var previous := PreviousFor(s, who, dto, shift, true);
        FinishMeter(s.(cells := Stops.StoredCells(s, who, dto, shift)), who, dto,
                    if existing.Some? then existing.value else |s.cells|, previous,
                    if existing.Some? then env.now else ShiftStartAt(NormalizeReportDate(dto.reportDate), shift, cfg),
                    ReturnDecision(s, who.tenant, dto.equipmentId, dto.status, previous), env, e);
      }
    case ReportFault(who, fault) =>
  }

  ghost predicate IsMaximum(m: int, values: set<int>) {
    m in values && forall v :: v in values ==> v <= m
  }

  /** Over reports and fault reports the meter is the maximum of its start and all accepted readings. */
  lemma {:induction false} MeterIsMaximum(s: State, steps: seq<Step>, e: EquipmentId)
    requires e in s.equipment && forall k :: 0 <= k < |steps| ==> IsReading(steps[k])
    ensures e in Run(s, steps).equipment
    ensures IsMaximum(Run(s, steps).equipment[e].currentMeter,
                      {s.equipment[e].currentMeter} + AcceptedReadings(s, steps, e))
  {
    if steps != [] {
      MeterIsMaximum(s, steps[..|steps| - 1], e);
      ReadingMeter(Run(s, steps[..|steps| - 1]), steps[|steps| - 1], e);
    }
  }
}

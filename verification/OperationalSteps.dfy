/** Every modelled write as one atomic step, and what the steps do to blockers and operational flags. */
module OperationalSteps {
  import opened Common
  import opened Tables
  import opened OperationalBlockers
  import opened Orchestrator
  import opened MeterSync
  import opened AvailabilityReports
  import Faults = FaultReports
  import Orders = WorkOrders
  import Equipments = EquipmentService
  import Bulk = BulkMeterSync
  import Adjustments = MeterAdjustments
  import Lube = LubeReports
  import Timeline = AvailabilityTimeline

  /** A status other than CLOSED. */
  type LiveStatus = st: OtStatus | st != OtClosed witness OtOpen

  datatype Step =
    | CreateReport(who: Caller, cfg: OpConfig, dto: ReportDto, env: Env)
    | UpsertReport(who: Caller, cfg: OpConfig, dto: ReportDto, shift: ShiftType, env: Env)
    | ReportFault(who: Caller, fault: Faults.FaultDto)
    | EscalateFault(who: Caller, report: nat)
    | OpenOrder(who: Caller, e: EquipmentId, impact: AvailabilityImpact, guards: bool)
    | EditOrderImpact(who: Caller, o: nat, newImpact: Option<AvailabilityImpact>, guards: bool)
    | MoveOrder(who: Caller, o: nat, status: LiveStatus)
    | CloseOrder(who: Caller, o: nat, leftOperational: bool, finalMeter: Option<int>, confirmedJump: bool, guards: bool)
    | AddEquipment(who: Caller, e: EquipmentId, contract: ContractId, initialMeter: int, currentMeter: int,
                   meterType: MeterType)
    | EditEquipment(who: Caller, e: EquipmentId, patch: Equipments.Patch, guards: bool)
    | SyncMeters(who: Caller, visible: set<EquipmentId>, raw: seq<Bulk.RawItem>)
    | AdjustMeter(who: Caller, adjustment: Adjustments.AdjustDto)
    | DispatchLubricants(who: Caller, dispatch: Lube.DispatchDto, warehouseOk: bool, linesOk: bool)

  function Apply(s: State, step: Step): State {
    match step
    case CreateReport(who, cfg, dto, env) => After(s, AvailabilityReports.Create(s, who, cfg, dto, env))
    case UpsertReport(who, cfg, dto, shift, env) => After(s, Upsert(s, who, cfg, dto, shift, env))
    case ReportFault(who, fault) => After(s, Faults.Create(s, who, fault))
    case EscalateFault(who, report) => After(s, Faults.Escalate(s, who, report))
    case OpenOrder(who, e, impact, guards) => After(s, Orders.Open(s, who, e, impact, guards))
    case EditOrderImpact(who, o, impact, guards) => After(s, Orders.EditImpact(s, who, o, impact, guards))
    case MoveOrder(who, o, status) => After(s, Orders.Move(s, who, o, status))
    case CloseOrder(who, o, left, meter, confirmed, guards) =>
      After(s, Orders.Close(s, who, o, left, meter, confirmed, guards))
    case AddEquipment(who, e, contract, initial, current, meterType) =>
      After(s, Equipments.Created(s, who, e, contract, initial, current, meterType))
    case EditEquipment(who, e, patch, guards) => After(s, Equipments.Updated(s, who, e, patch, guards))
    case SyncMeters(who, visible, raw) => After(s, Bulk.BulkSync(s, who, visible, raw))
    case AdjustMeter(who, adjustment) => After(s, Adjustments.Adjusted(s, who, adjustment))
    case DispatchLubricants(who, dispatch, warehouseOk, linesOk) =>
      After(s, Lube.Dispatched(s, who, dispatch, warehouseOk, linesOk))
  }

  function Run(s: State, steps: seq<Step>): State {
    if steps == [] then s else Apply(Run(s, steps[..|steps| - 1]), steps[|steps| - 1])
  }

  // ------------------------------------------------------ referential integrity

  ghost predicate FaultRefs(s: State, f: Fault) {
    && Owns(s, f.tenant, f.equipmentId)
    && (f.workOrderId.Some? ==>
          && f.workOrderId.value < |s.orders|
          && s.orders[f.workOrderId.value].tenant == f.tenant
          && s.orders[f.workOrderId.value].equipmentId == f.equipmentId)
  }

  ghost predicate References(s: State) {
    && (forall i :: 0 <= i < |s.faults| ==> FaultRefs(s, s.faults[i]))
    && (forall o :: 0 <= o < |s.orders| ==> Owns(s, s.orders[o].tenant, s.orders[o].equipmentId))
  }

  /** Nothing about an equipment moved but its flag, meter, contract and meter type. */
  ghost predicate SameFleet(s: State, s': State) {
    s'.equipment.Keys == s.equipment.Keys
    && forall e :: e in s.equipment ==> s'.equipment[e].tenant == s.equipment[e].tenant
  }

  ghost predicate SameFlags(s: State, s': State) {
    SameFleet(s, s') && forall e :: e in s.equipment ==> s'.equipment[e].isOperational == s.equipment[e].isOperational
  }

  // ------------------------------------------------------------ blocker algebra

  lemma BlockedAfterFault(s: State, s': State, f: Fault, t: TenantId, e: EquipmentId)
    requires s'.faults == s.faults + [f] && s'.orders == s.orders
    ensures Blocked(s', t, e) <==> Blocked(s, t, e) || BlockingFault(f, s.orders, t, e)
  {
    assert s'.faults[|s.faults|] == f;
    assert forall i :: 0 <= i < |s.faults| ==> s'.faults[i] == s.faults[i];
  }

  lemma BlockedAfterOrder(s: State, s': State, o: WorkOrder, t: TenantId, e: EquipmentId)
    requires References(s) && s'.orders == s.orders + [o] && s'.faults == s.faults
    ensures Blocked(s', t, e) <==> Blocked(s, t, e) || BlockingOrder(o, t, e)
  {
    assert s'.orders[|s.orders|] == o;
    assert forall i :: 0 <= i < |s.orders| ==> s'.orders[i] == s.orders[i];
    forall i | 0 <= i < |s.faults|
      ensures BlockingFault(s.faults[i], s'.orders, t, e) <==> BlockingFault(s.faults[i], s.orders, t, e)
    {
      assert FaultRefs(s, s.faults[i]);
    }
  }

  /** Linking an open report to a new order adds a cause only through the order's own impact. */
  lemma BlockedAfterLink(s: State, report: nat, impact: AvailabilityImpact, t: TenantId, e: EquipmentId)
    requires References(s) && report < |s.faults| && s.faults[report].status == FaultOpen
    ensures var s' := Faults.LinkedToNewOrder(s, report, impact);
            Blocked(s', t, e) <==> Blocked(s, t, e) || (impact == Si && OfEquipment(s.faults[report], t, e))
  {
    var s' := Faults.LinkedToNewOrder(s, report, impact);
    assert s'.orders[|s.orders|] == WorkOrder(s.faults[report].tenant, s.faults[report].equipmentId, Some(impact), OtOpen);
    assert forall i :: 0 <= i < |s.orders| ==> s'.orders[i] == s.orders[i];
    forall i | 0 <= i < |s.faults|
      ensures BlockingFault(s'.faults[i], s'.orders, t, e) <==> BlockingFault(s.faults[i], s.orders, t, e)
    {
      assert FaultRefs(s, s.faults[i]);
    }
  }

  /** A change of one order's status or impact, seen by the faults linked to it and by itself. */
  lemma BlockedAfterOrderEdit(s: State, s': State, o: nat, order: WorkOrder, t: TenantId, e: EquipmentId)
    requires References(s) && o < |s.orders| && s'.faults == s.faults && s'.orders == s.orders[o := order]
    requires order.tenant == s.orders[o].tenant && order.equipmentId == s.orders[o].equipmentId
    ensures !(order.tenant == t && order.equipmentId == e) ==> (Blocked(s', t, e) <==> Blocked(s, t, e))
    ensures order.status == OtClosed && Blocked(s', t, e) ==> Blocked(s, t, e)
    ensures order.status != OtClosed && s.orders[o].status != OtClosed && order.impact == s.orders[o].impact ==>
              (Blocked(s', t, e) <==> Blocked(s, t, e))
  {
    assert forall i :: 0 <= i < |s.orders| && i != o ==> s'.orders[i] == s.orders[i];
    assert s'.orders[o] == order;
    forall i | 0 <= i < |s.faults|
      ensures !(order.tenant == t && order.equipmentId == e) || (order.status != OtClosed && s.orders[o].status != OtClosed) ==>
                (BlockingFault(s'.faults[i], s'.orders, t, e) <==> BlockingFault(s.faults[i], s.orders, t, e))
      ensures order.status == OtClosed && BlockingFault(s'.faults[i], s'.orders, t, e) ==>
                BlockingFault(s.faults[i], s.orders, t, e)
    {
      assert FaultRefs(s, s.faults[i]);
    }
    OrdersAfterEdit(s, s', o, order, t, e);
  }

  lemma OrdersAfterEdit(s: State, s': State, o: nat, order: WorkOrder, t: TenantId, e: EquipmentId)
    requires o < |s.orders| && s'.orders == s.orders[o := order]
    ensures (exists i :: 0 <= i < |s'.orders| && BlockingOrder(s'.orders[i], t, e)) <==>
            BlockingOrder(order, t, e) || (exists i :: 0 <= i < |s.orders| && i != o && BlockingOrder(s.orders[i], t, e))
  {
    assert s'.orders[o] == order;
    assert forall i :: 0 <= i < |s.orders| && i != o ==> s'.orders[i] == s.orders[i];
    if i :| 0 <= i < |s.orders| && i != o && BlockingOrder(s.orders[i], t, e) {
      assert BlockingOrder(s'.orders[i], t, e);
    }
  }

  // ---------------------------------------------------------- what a report does

  /** The faults table after a report: unchanged, or with one open stub of LOW criticality. */
  ghost predicate AtMostOneStub(s: State, s': State, t: TenantId, e: EquipmentId) {
    || s'.faults == s.faults
    || (|s'.faults| == |s.faults| + 1 && s'.faults == s.faults + [s'.faults[|s.faults|]]
        && var stub := s'.faults[|s.faults|];
           OfEquipment(stub, t, e) && stub.criticality == Low && stub.status == FaultOpen && stub.workOrderId == None)
  }

  /** Everything a committed report may do to faults, orders and flags. */
  ghost predicate ReportEffect(s: State, s': State, t: TenantId, e: EquipmentId, status: OperationalStatus,
                               previous: Option<OperationalStatus>, r: Transition)
  {
    && Owns(s, t, e) && SameFleet(s, s')
    && s'.orders == s.orders
    && AtMostOneStub(s, s', t, e)
    && (forall x :: x in s.equipment && x != e ==> s'.equipment[x] == s.equipment[x])
    && s'.equipment[e].isOperational ==
         (if IsStop(status) then false else ReturnsToService(status, previous) || s.equipment[e].isOperational)
    && (ReturnsToService(status, previous) ==> !Blocked(s, t, e))
    && r.skippedReason != Some(BlockedByActiveCauses)
    && (r.createdFaultReport <==> |s'.faults| == |s.faults| + 1)
    && (r.createdFaultReport <==>
          IsStop(status) && FindActiveFault(s, t, e).None? && s.equipment[e].contract.Some?)
  }

  lemma ResolveReadsCauses(s: State, s': State, t: TenantId, e: EquipmentId, exclude: Option<nat>)
    requires s'.faults == s.faults && s'.orders == s.orders
    ensures Resolve(s', t, e, exclude) == Resolve(s, t, e, exclude)
  {
  }

  lemma StopEffect(s: State, input: TransitionInput)
    requires Owns(s, input.tenant, input.equipmentId) && IsStop(input.newStatus)
    ensures var tx := StopTransition(s, input);
            tx.Committed?
            && ReportEffect(s, tx.state, input.tenant, input.equipmentId, input.newStatus, input.previousStatus, tx.value)
  {
  }

  /** A validated decision for this very equipment is what the orchestrator acts on. */
  lemma StatusChangeEffect(s: State, input: TransitionInput)
    requires Owns(s, input.tenant, input.equipmentId)
    requires ReturnsToService(input.newStatus, input.previousStatus) ==>
               input.validated == Some(Resolve(s, input.tenant, input.equipmentId, None)) && input.validated.value.allowed
    ensures var tx := StatusChange(s, input);
            tx.Committed?
            && ReportEffect(s, tx.state, input.tenant, input.equipmentId, input.newStatus, input.previousStatus, tx.value)
  {
    if IsStop(input.newStatus) {
      StopEffect(s, input);
    } else if ReturnsToService(input.newStatus, input.previousStatus) {
      AllowedIffNotBlocked(s, input.tenant, input.equipmentId);
    }
  }

  lemma AdvanceKeepsCauses(s: State, e: EquipmentId, reading: Option<int>, source: MeterSource, sourceId: nat, user: UserId)
    requires e in s.equipment
    ensures var s' := MeterAdvanced(s, e, reading, source, sourceId, user);
            && s'.faults == s.faults && s'.orders == s.orders && SameFlags(s, s')
            && s'.equipment[e].contract == s.equipment[e].contract
            && (forall x :: x in s.equipment && x != e ==> s'.equipment[x] == s.equipment[x])
  {
  }

  lemma FinishEffect(s: State, who: Caller, dto: ReportDto, cellId: nat, previous: Option<OperationalStatus>,
                     eventAt: int, env: Env)
    requires Owns(s, who.tenant, dto.equipmentId)
    requires ReturnsToService(dto.status, previous) ==> Resolve(s, who.tenant, dto.equipmentId, None).allowed
    ensures var d := ReturnDecision(s, who.tenant, dto.equipmentId, dto.status, previous);
            var tx := Finish(s, who, dto, cellId, previous, eventAt, d, env);
            tx.Committed? ==>
              ReportEffect(s, tx.state, who.tenant, dto.equipmentId, dto.status, previous, tx.value)
  {
    var t, e := who.tenant, dto.equipmentId;
    var d := ReturnDecision(s, t, e, dto.status, previous);
    var registration := Timeline.Register(s.events, s.faults, EventInput(who, dto, cellId, previous, eventAt),
                                          env.eventId, env.createdAt);
    if registration.Registered? {
      var s1 := s.(events := registration.events);
      var s2 := MeterAdvanced(s1, e, dto.meterReading, AvailabilityReport, cellId, who.userId);
      AdvanceKeepsCauses(s1, e, dto.meterReading, AvailabilityReport, cellId, who.userId);
      ResolveReadsCauses(s, s2, t, e, None);
      var input := TransitionInput(t, e, dto.status, previous, dto.meterReading, d);
      StatusChangeEffect(s2, input);
      EffectThroughFrame(s, s2, StatusChange(s2, input).state, t, e, dto.status, previous, StatusChange(s2, input).value);
    }
  }

  /** An effect measured after event and meter were written is the same effect measured before. */
  lemma EffectThroughFrame(s: State, s2: State, s': State, t: TenantId, e: EquipmentId, status: OperationalStatus,
                           previous: Option<OperationalStatus>, r: Transition)
    requires ReportEffect(s2, s', t, e, status, previous, r)
    requires s2.faults == s.faults && s2.orders == s.orders && SameFlags(s, s2) && Owns(s, t, e)
    requires s2.equipment[e].contract == s.equipment[e].contract
    requires forall x :: x in s.equipment && x != e ==> s2.equipment[x] == s.equipment[x]
    ensures ReportEffect(s, s', t, e, status, previous, r)
  {
    assert FindActiveFault(s2, t, e) == FindActiveFault(s, t, e);
  }

  /** The status a report is measured against, as both report operations resolve it. */
  function PreviousFor(s: State, who: Caller, dto: ReportDto, shift: ShiftType, edits: bool): Option<OperationalStatus> {
    var date := NormalizeReportDate(dto.reportDate);
    var existing := FindCell(s.cells, who.tenant, dto.equipmentId, date, shift);
    var current := if edits && existing.Some? then Some(s.cells[existing.value].status) else None;
    ResolvePrevious(s.cells, who.tenant, dto.equipmentId, date, shift, current)
  }

  lemma CreateEffect(s: State, who: Caller, cfg: OpConfig, dto: ReportDto, env: Env)
    requires AvailabilityReports.Create(s, who, cfg, dto, env).Committed?
    ensures var tx := AvailabilityReports.Create(s, who, cfg, dto, env);
            ReportEffect(s, tx.state, who.tenant, dto.equipmentId, dto.status,
                         PreviousFor(s, who, dto, ResolveShift(cfg, dto.shift), false), tx.value)
  {
    var shift := ResolveShift(cfg, dto.shift);
    var date := NormalizeReportDate(dto.reportDate);
    var previous := PreviousFor(s, who, dto, shift, false);
    var stored := s.(cells := s.cells + [NewCell(s, who, dto, date, shift)]);
    ResolveReadsCauses(s, stored, who.tenant, dto.equipmentId, None);
    FinishEffect(stored, who, dto, |s.cells|, previous, ShiftStartAt(date, shift, cfg), env);
  }

  lemma UpsertEffect(s: State, who: Caller, cfg: OpConfig, dto: ReportDto, shift: ShiftType, env: Env)
    requires Upsert(s, who, cfg, dto, shift, env).Committed?
    ensures var tx := Upsert(s, who, cfg, dto, shift, env);
            ReportEffect(s, tx.state, who.tenant, dto.equipmentId, dto.status,
                         PreviousFor(s, who, dto, shift, true), tx.value)
  {
    var date := NormalizeReportDate(dto.reportDate);
    var existing := FindCell(s.cells, who.tenant, dto.equipmentId, date, shift);
    var previous := PreviousFor(s, who, dto, shift, true);
    var stored := s.(cells := if existing.Some?
                              then s.cells[existing.value := EditedCell(s.cells[existing.value], who, dto)]
                              else s.cells + [NewCell(s, who, dto, date, shift)]);
    ResolveReadsCauses(s, stored, who.tenant, dto.equipmentId, None);
    FinishEffect(stored, who, dto, if existing.Some? then existing.value else |s.cells|, previous,
                 if existing.Some? then env.now else ShiftStartAt(date, shift, cfg), env);
  }

  lemma LowFaultIsNoCause(s: State, s': State, f: Fault, t: TenantId, e: EquipmentId)
    requires s'.faults == s.faults + [f] && s'.orders == s.orders && f.criticality == Low
    ensures FaultCauses(s', t, e) == FaultCauses(s, t, e)
  {
    assert s'.faults[..|s.faults|] == s.faults;
  }

  /** A report never changes the list of causes of any equipment, itself included: stubs are LOW. */
  lemma ReportKeepsBlocked(s: State, s': State, t: TenantId, e: EquipmentId, status: OperationalStatus,
                           previous: Option<OperationalStatus>, r: Transition, t': TenantId, e': EquipmentId)
    requires ReportEffect(s, s', t, e, status, previous, r)
    ensures Blockers(s', t', e', None) == Blockers(s, t', e', None)
    ensures Blocked(s', t', e') <==> Blocked(s, t', e')
  {
    if s'.faults != s.faults {
      LowFaultIsNoCause(s, s', s'.faults[|s.faults|], t', e');
    }
    AllowedIffNotBlocked(s, t', e');
    AllowedIffNotBlocked(s', t', e');
  }

  // ----------------------------------------------------- what a fault report does

  ghost predicate FaultEffect(s: State, s': State, t: TenantId, e: EquipmentId, criticality: FaultCriticality) {
    && Owns(s, t, e) && SameFleet(s, s')
    && (forall x :: x in s.equipment && x != e ==> s'.equipment[x] == s.equipment[x])
    && s'.equipment[e].isOperational == (criticality != High && s.equipment[e].isOperational)
    && References(s')
    && (forall t', e' :: Blocked(s', t', e') <==> Blocked(s, t', e') || (criticality == High && t' == t && e' == e))
  }

  lemma FaultReportEffect(s: State, who: Caller, dto: Faults.FaultDto)
    requires References(s) && Faults.Create(s, who, dto).Committed?
    ensures FaultEffect(s, Faults.Create(s, who, dto).state, who.tenant, dto.equipmentId, dto.criticality)
  {
    var t, e := who.tenant, dto.equipmentId;
    var contract := s.equipment[e].contract.value;
    var f := Faults.NewReport(s, who, dto, contract);
    var s1 := Faults.Recorded(s, who, dto, contract);
    assert s1.faults == s.faults + [f] && s1.orders == s.orders && SameFlags(s, s1);
    RecordedReferences(s, s1, f);
    forall t', e'
      ensures Blocked(s1, t', e') <==> Blocked(s, t', e') || (dto.criticality == High && t' == t && e' == e)
    {
      BlockedAfterFault(s, s1, f, t', e');
    }
    if dto.criticality != Low {
      var impact := if dto.criticality == High then Si else No;
      var s2 := Faults.LinkedToNewOrder(s1, |s.faults|, impact);
      LinkReferences(s1, |s.faults|, impact);
      forall t', e'
        ensures Blocked(s2, t', e') <==> Blocked(s, t', e') || (dto.criticality == High && t' == t && e' == e)
      {
        BlockedAfterLink(s1, |s.faults|, impact, t', e');
      }
      if dto.criticality == High {
        FlagKeepsCauses(s2, e, false);
      }
    }
  }

  lemma RecordedReferences(s: State, s1: State, f: Fault)
    requires References(s) && s1.faults == s.faults + [f] && s1.orders == s.orders && SameFleet(s, s1)
    requires Owns(s, f.tenant, f.equipmentId) && f.workOrderId == None
    ensures References(s1)
  {
  }

  lemma LinkReferences(s: State, report: nat, impact: AvailabilityImpact)
    requires References(s) && report < |s.faults|
    ensures References(Faults.LinkedToNewOrder(s, report, impact))
  {
  }

  lemma FlagKeepsCauses(s: State, e: EquipmentId, operational: bool)
    requires e in s.equipment
    ensures var s' := WithOperational(s, e, operational);
            && (forall t', e' :: Blocked(s', t', e') <==> Blocked(s, t', e'))
            && SameFleet(s, s')
            && (References(s) ==> References(s'))
  {
  }

  // ------------------------------------------------------------ steps and services

  /** Each step is one call of a service on the database; a failed call leaves the tables as they were. */
  method Perform(db: Database, step: Step)
    modifies db
    ensures db.Snapshot() == Apply(old(db.Snapshot()), step)
  {
    match step
    case CreateReport(who, cfg, dto, env) =>
      var _ := AvailabilityReports.CreateReport(db, who, cfg, dto, env);
    case UpsertReport(who, cfg, dto, shift, env) =>
      var _ := AvailabilityReports.UpsertRow(db, who, cfg, dto, shift, env);
    case ReportFault(who, fault) =>
      var _ := Faults.CreateFaultReport(db, who, fault);
    case EscalateFault(who, report) =>
      var _ := Faults.CreateWorkOrderFromReport(db, who, report);
    case OpenOrder(who, e, impact, guards) =>
      var _ := Orders.OpenOrder(db, who, e, impact, guards);
    case EditOrderImpact(who, o, impact, guards) =>
      var _ := Orders.UpdateImpact(db, who, o, impact, guards);
    case MoveOrder(who, o, status) =>
      var _ := Orders.UpdateStatus(db, who, o, status);
    case CloseOrder(who, o, left, meter, confirmed, guards) =>
      var _ := Orders.CloseOrder(db, who, o, left, meter, confirmed, guards);
    case AddEquipment(who, e, contract, initial, current, meterType) =>
      var _ := Equipments.CreateEquipment(db, who, e, contract, initial, current, meterType);
    case EditEquipment(who, e, patch, guards) =>
      var _ := Equipments.UpdateEquipment(db, who, e, patch, guards);
    case SyncMeters(who, visible, raw) =>
      var _ := Bulk.BulkSyncMeterReadings(db, who, visible, raw);
    case AdjustMeter(who, adjustment) =>
      var _ := Adjustments.AdjustMeter(db, who, adjustment);
    case DispatchLubricants(who, dispatch, warehouseOk, linesOk) =>
      var _ := Lube.DispatchLubricants(db, who, dispatch, warehouseOk, linesOk);
  }
}

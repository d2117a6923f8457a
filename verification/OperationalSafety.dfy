/**
 * Safety over whole runs: an equipment with an active cause of detention is out of
 * service, and exactly which steps can break that.
 */
module OperationalSafety {
  import opened Common
  import opened Tables
  import opened OperationalBlockers
  import opened Orchestrator
  import opened MeterSync
  import opened AvailabilityReports
  import opened OperationalSteps
  import Faults = FaultReports
  import Orders = WorkOrders
  import Equipments = EquipmentService
  import Bulk = BulkMeterSync
  import Adjustments = MeterAdjustments
  import Lube = LubeReports

  ghost predicate Safe(s: State) {
    forall e :: e in s.equipment && Blocked(s, s.equipment[e].tenant, e) ==> !s.equipment[e].isOperational
  }

  /** A HIGH report linked to order o: active again as soon as o is not closed. */
  ghost predicate HasHighReport(s: State, o: nat) {
    exists i :: 0 <= i < |s.faults| && s.faults[i].criticality == High && s.faults[i].status == FaultLinked
                && s.faults[i].workOrderId == Some(o)
  }

  /**
   * The steps that give an operational equipment a cause of detention without stopping it:
   * a new order with impact SI, an edit to impact SI, and the reopening of a closed order
   * that blocks, unless it goes to IN_PROGRESS with impact SI.
   */
  ghost predicate LeavesUnguarded(s: State, step: Step) {
    match step
    case OpenOrder(who, e, impact, guards) =>
      Owns(s, who.tenant, e) && guards && impact == Si && s.equipment[e].isOperational
    case EditOrderImpact(who, o, impact, guards) =>
      Orders.OwnsOrder(s, who, o) && s.orders[o].status != OtClosed && guards && impact == Some(Si)
      && s.equipment[s.orders[o].equipmentId].isOperational
    case MoveOrder(who, o, status) =>
      Orders.OwnsOrder(s, who, o) && s.orders[o].status == OtClosed
      && (s.orders[o].impact == Some(Si) || HasHighReport(s, o))
      && !(status == OtInProgress && s.orders[o].impact == Some(Si))
      && s.equipment[s.orders[o].equipmentId].isOperational
    case _ => false
  }

  // ------------------------------------------------------------- step by step

  lemma ReportSafe(s: State, s': State, t: TenantId, e: EquipmentId, status: OperationalStatus,
                   previous: Option<OperationalStatus>, r: Transition)
    requires References(s) && Safe(s) && ReportEffect(s, s', t, e, status, previous, r)
    ensures References(s') && Safe(s')
  {
  }

  lemma FaultSafe(s: State, s': State, t: TenantId, e: EquipmentId, criticality: FaultCriticality)
    requires Safe(s) && FaultEffect(s, s', t, e, criticality)
    ensures Safe(s')
  {
  }

  lemma EscalateSafe(s: State, who: Caller, report: nat)
    requires References(s) && Safe(s) && Faults.Escalate(s, who, report).Committed?
    ensures References(Faults.Escalate(s, who, report).state) && Safe(Faults.Escalate(s, who, report).state)
  {
  }

  lemma OpenOrderSafe(s: State, who: Caller, e: EquipmentId, impact: AvailabilityImpact, guards: bool)
    requires References(s) && Safe(s) && Orders.Open(s, who, e, impact, guards).Committed?
    ensures var s' := Orders.Open(s, who, e, impact, guards).state;
            References(s') && (Safe(s') <==> !(impact == Si && s.equipment[e].isOperational))
  {
    var s' := Orders.Open(s, who, e, impact, guards).state;
    var order := WorkOrder(who.tenant, e, Some(impact), OtOpen);
    forall i | 0 <= i < |s'.faults|
      ensures FaultRefs(s', s'.faults[i])
    {
      assert FaultRefs(s, s.faults[i]);
    }
    forall x | x in s.equipment
      ensures Blocked(s', s.equipment[x].tenant, x) <==> Blocked(s, s.equipment[x].tenant, x) || (impact == Si && x == e)
    {
      BlockedAfterOrder(s, s', order, s.equipment[x].tenant, x);
    }
  }

  /** References, when one order changed neither tenant nor equipment. */
  lemma OrderEditReferences(s: State, s': State, o: nat, order: WorkOrder)
    requires References(s) && o < |s.orders| && s'.orders == s.orders[o := order] && s'.faults == s.faults
    requires order.tenant == s.orders[o].tenant && order.equipmentId == s.orders[o].equipmentId && SameFleet(s, s')
    ensures References(s')
  {
  }

  lemma EditImpactSafe(s: State, who: Caller, o: nat, impact: Option<AvailabilityImpact>, guards: bool)
    requires References(s) && Safe(s) && Orders.EditImpact(s, who, o, impact, guards).Committed?
    ensures var s' := Orders.EditImpact(s, who, o, impact, guards).state;
            References(s')
            && (Safe(s') <==> !(impact == Some(Si) && s.equipment[s.orders[o].equipmentId].isOperational))
  {
    var s' := Orders.EditImpact(s, who, o, impact, guards).state;
    var order := s.orders[o].(impact := impact);
    OrderEditReferences(s, s', o, order);
    assert Owns(s, order.tenant, order.equipmentId);
    if impact == Some(Si) {
      assert BlockingOrder(s'.orders[o], order.tenant, order.equipmentId);
    }
    forall x | x in s.equipment && x != order.equipmentId
      ensures Blocked(s', s.equipment[x].tenant, x) <==> Blocked(s, s.equipment[x].tenant, x)
    {
      BlockedAfterOrderEdit(s, s', o, order, s.equipment[x].tenant, x);
    }
    if impact != Some(Si) && Blocked(s', order.tenant, order.equipmentId) {
      LessImpactBlocksLess(s, s', o, order);
    }
  }

  lemma LessImpactBlocksLess(s: State, s': State, o: nat, order: WorkOrder)
    requires References(s) && o < |s.orders| && s'.orders == s.orders[o := order] && s'.faults == s.faults
    requires order == s.orders[o].(impact := order.impact) && order.impact != Some(Si)
    requires Blocked(s', order.tenant, order.equipmentId)
    ensures Blocked(s, order.tenant, order.equipmentId)
  {
    var t, e := order.tenant, order.equipmentId;
    OrdersAfterEdit(s, s', o, order, t, e);
    if i :| 0 <= i < |s'.faults| && BlockingFault(s'.faults[i], s'.orders, t, e) {
      assert FaultRefs(s, s.faults[i]);
      assert BlockingFault(s.faults[i], s.orders, t, e);
    }
  }

  /** A closed order that is reopened blocks through its impact or through the HIGH report it answers. */
  lemma ReopenedBlocks(s: State, s': State, o: nat, order: WorkOrder)
    requires References(s) && o < |s.orders| && s'.orders == s.orders[o := order] && s'.faults == s.faults
    requires s.orders[o].status == OtClosed && order == s.orders[o].(status := order.status) && order.status != OtClosed
    ensures Blocked(s', order.tenant, order.equipmentId) <==>
            Blocked(s, order.tenant, order.equipmentId) || order.impact == Some(Si) || HasHighReport(s, o)
  {
    var t, e := order.tenant, order.equipmentId;
    OrdersAfterEdit(s, s', o, order, t, e);
    forall i | 0 <= i < |s.faults|
      ensures BlockingFault(s'.faults[i], s'.orders, t, e) <==>
              BlockingFault(s.faults[i], s.orders, t, e)
              || (s.faults[i].criticality == High && s.faults[i].status == FaultLinked && s.faults[i].workOrderId == Some(o))
    {
      assert FaultRefs(s, s.faults[i]);
    }
  }

  lemma MoveOrderSafe(s: State, who: Caller, o: nat, status: LiveStatus)
    requires References(s) && Safe(s) && Orders.Move(s, who, o, status).Committed?
    ensures var s' := Orders.Move(s, who, o, status).state;
            References(s') && (Safe(s') <==> !LeavesUnguarded(s, MoveOrder(who, o, status)))
  {
    var s' := Orders.Move(s, who, o, status).state;
    var order := s.orders[o].(status := status);
    var e := order.equipmentId;
    assert Owns(s, order.tenant, e);
    OrderEditReferences(s, s', o, order);
    forall x | x in s.equipment && x != e
      ensures Blocked(s', s.equipment[x].tenant, x) <==> Blocked(s, s.equipment[x].tenant, x)
    {
      BlockedAfterOrderEdit(s, s', o, order, s.equipment[x].tenant, x);
    }
    if s.orders[o].status == OtClosed {
      ReopenedBlocks(s, s', o, order);
    } else {
      BlockedAfterOrderEdit(s, s', o, order, order.tenant, e);
    }
  }

  /** After closing, the flag is exactly: declared operational, and no cause left. */
  lemma CloseMeaning(s: State, who: Caller, o: nat, left: bool, meter: Option<int>, confirmed: bool, guards: bool)
    requires References(s) && Orders.Close(s, who, o, left, meter, confirmed, guards).Committed?
    ensures var s' := Orders.Close(s, who, o, left, meter, confirmed, guards).state;
            var e := s.orders[o].equipmentId;
            && s'.orders == s.orders[o := s.orders[o].(status := OtClosed)] && s'.faults == s.faults
            && SameFleet(s, s')
            && (forall x :: x in s.equipment && x != e ==> s'.equipment[x] == s.equipment[x])
            && s'.equipment[e].isOperational == (left && !Blocked(s', who.tenant, e))
  {
    var e := s.orders[o].equipmentId;
    var s1 := s.(orders := s.orders[o := s.orders[o].(status := OtClosed)]);
    var s2 := Orders.MetersOnClose(s1, who, o, meter);
    assert s2.faults == s.faults && s2.orders == s1.orders && SameFlags(s, s2);
    ClosedOrderNeedsNoExclusion(s2.orders, who.tenant, e, o);
    AllowedIffNotBlocked(s2, who.tenant, e);
    FlagKeepsCauses(s2, e, left && Resolve(s2, who.tenant, e, Some(o)).allowed);
  }

  lemma CloseOrderSafe(s: State, who: Caller, o: nat, left: bool, meter: Option<int>, confirmed: bool, guards: bool)
    requires References(s) && Safe(s) && Orders.Close(s, who, o, left, meter, confirmed, guards).Committed?
    ensures var s' := Orders.Close(s, who, o, left, meter, confirmed, guards).state;
            References(s') && Safe(s')
  {
    var s' := Orders.Close(s, who, o, left, meter, confirmed, guards).state;
    var order := s.orders[o].(status := OtClosed);
    CloseMeaning(s, who, o, left, meter, confirmed, guards);
    OrderEditReferences(s, s', o, order);
    assert Owns(s, order.tenant, order.equipmentId);
    forall x | x in s.equipment && x != order.equipmentId
      ensures Blocked(s', s.equipment[x].tenant, x) ==> Blocked(s, s.equipment[x].tenant, x)
    {
      BlockedAfterOrderEdit(s, s', o, order, s.equipment[x].tenant, x);
    }
  }

  /** Steps that write no cause and no flag of an existing equipment. */
  lemma QuietStepSafe(s: State, s': State)
    requires References(s) && Safe(s) && SameFlags(s, s') && s'.faults == s.faults && s'.orders == s.orders
    ensures References(s') && Safe(s')
  {
  }

  lemma AddEquipmentSafe(s: State, s': State, e: EquipmentId)
    requires References(s) && Safe(s) && e !in s.equipment && s'.faults == s.faults && s'.orders == s.orders
    requires s'.equipment.Keys == s.equipment.Keys + {e}
    requires forall x :: x in s.equipment ==> s'.equipment[x] == s.equipment[x]
    ensures References(s') && Safe(s')
  {
    forall i | 0 <= i < |s'.faults|
      ensures FaultRefs(s', s'.faults[i])
    {
      assert FaultRefs(s, s.faults[i]);
    }
    forall x | x in s'.equipment && Blocked(s', s'.equipment[x].tenant, x)
      ensures !s'.equipment[x].isOperational
    {
      if i :| 0 <= i < |s.faults| && BlockingFault(s.faults[i], s.orders, s'.equipment[x].tenant, x) {
        assert FaultRefs(s, s.faults[i]);
      } else {
        assert exists i :: 0 <= i < |s.orders| && BlockingOrder(s.orders[i], s'.equipment[x].tenant, x);
      }
      assert x in s.equipment;
      assert Blocked(s, s.equipment[x].tenant, x);
    }
  }

  lemma BulkKeepsFlags(s: State, who: Caller, visible: set<EquipmentId>, items: seq<Bulk.Item>)
    ensures var s' := Bulk.SyncAll(s, who, visible, items).0;
            SameFlags(s, s') && s'.faults == s.faults && s'.orders == s.orders
  {
  }

  lemma CreateReportSafe(s: State, who: Caller, cfg: OpConfig, dto: ReportDto, env: Env)
    requires References(s) && Safe(s) && AvailabilityReports.Create(s, who, cfg, dto, env).Committed?
    ensures References(AvailabilityReports.Create(s, who, cfg, dto, env).state)
    ensures Safe(AvailabilityReports.Create(s, who, cfg, dto, env).state)
  {
    var tx := AvailabilityReports.Create(s, who, cfg, dto, env);
    CreateEffect(s, who, cfg, dto, env);
    ReportSafe(s, tx.state, who.tenant, dto.equipmentId, dto.status,
               PreviousFor(s, who, dto, ResolveShift(cfg, dto.shift), false), tx.value);
  }

  lemma UpsertReportSafe(s: State, who: Caller, cfg: OpConfig, dto: ReportDto, shift: ShiftType, env: Env)
    requires References(s) && Safe(s) && Upsert(s, who, cfg, dto, shift, env).Committed?
    ensures References(Upsert(s, who, cfg, dto, shift, env).state) && Safe(Upsert(s, who, cfg, dto, shift, env).state)
  {
    var tx := Upsert(s, who, cfg, dto, shift, env);
    UpsertEffect(s, who, cfg, dto, shift, env);
    ReportSafe(s, tx.state, who.tenant, dto.equipmentId, dto.status, PreviousFor(s, who, dto, shift, true), tx.value);
  }

  lemma FaultReportSafe(s: State, who: Caller, fault: Faults.FaultDto)
    requires References(s) && Safe(s) && Faults.Create(s, who, fault).Committed?
    ensures References(Faults.Create(s, who, fault).state) && Safe(Faults.Create(s, who, fault).state)
  {
    FaultReportEffect(s, who, fault);
    FaultSafe(s, Faults.Create(s, who, fault).state, who.tenant, fault.equipmentId, fault.criticality);
  }

  lemma SyncMetersSafe(s: State, who: Caller, visible: set<EquipmentId>, raw: seq<Bulk.RawItem>)
    requires References(s) && Safe(s) && Bulk.BulkSync(s, who, visible, raw).Committed?
    ensures References(Bulk.BulkSync(s, who, visible, raw).state) && Safe(Bulk.BulkSync(s, who, visible, raw).state)
  {
    Bulk.FirstErrorNone(raw);
    BulkKeepsFlags(s, who, visible, Bulk.Merged(raw));
    QuietStepSafe(s, Bulk.BulkSync(s, who, visible, raw).state);
  }

  lemma EditEquipmentSafe(s: State, who: Caller, e: EquipmentId, patch: Equipments.Patch, guards: bool)
    requires References(s) && Safe(s) && Equipments.Updated(s, who, e, patch, guards).Committed?
    ensures References(Equipments.Updated(s, who, e, patch, guards).state)
    ensures Safe(Equipments.Updated(s, who, e, patch, guards).state)
  {
    QuietStepSafe(s, Equipments.Updated(s, who, e, patch, guards).state);
  }

  /** The steps of the work order service. */
  lemma OrderStepSafeIff(s: State, step: Step)
    requires References(s) && Safe(s)
    requires step.OpenOrder? || step.EditOrderImpact? || step.MoveOrder? || step.CloseOrder?
    ensures References(Apply(s, step))
    ensures Safe(Apply(s, step)) <==> !LeavesUnguarded(s, step)
  {
    match step
    case OpenOrder(who, e, impact, guards) =>
      if Orders.Open(s, who, e, impact, guards).Committed? { OpenOrderSafe(s, who, e, impact, guards); }
    case EditOrderImpact(who, o, impact, guards) =>
      if Orders.EditImpact(s, who, o, impact, guards).Committed? { EditImpactSafe(s, who, o, impact, guards); }
    case MoveOrder(who, o, status) =>
      if Orders.Move(s, who, o, status).Committed? { MoveOrderSafe(s, who, o, status); }
    case CloseOrder(who, o, left, meter, confirmed, guards) =>
      if Orders.Close(s, who, o, left, meter, confirmed, guards).Committed? {
        CloseOrderSafe(s, who, o, left, meter, confirmed, guards);
      }
  }

  lemma AdjustMeterSafe(s: State, who: Caller, dto: Adjustments.AdjustDto)
    requires References(s) && Safe(s) && Adjustments.Adjusted(s, who, dto).Committed?
    ensures References(Adjustments.Adjusted(s, who, dto).state) && Safe(Adjustments.Adjusted(s, who, dto).state)
  {
    QuietStepSafe(s, Adjustments.Adjusted(s, who, dto).state);
  }

  lemma DispatchSafe(s: State, who: Caller, dto: Lube.DispatchDto, warehouseOk: bool, linesOk: bool)
    requires References(s) && Safe(s) && Lube.Dispatched(s, who, dto, warehouseOk, linesOk).Committed?
    ensures References(Lube.Dispatched(s, who, dto, warehouseOk, linesOk).state)
    ensures Safe(Lube.Dispatched(s, who, dto, warehouseOk, linesOk).state)
  {
    QuietStepSafe(s, Lube.Dispatched(s, who, dto, warehouseOk, linesOk).state);
  }

  /** The steps that change or create equipment rows. */
  lemma MeterStepSafe(s: State, step: Step)
    requires References(s) && Safe(s)
    requires step.AddEquipment? || step.EditEquipment? || step.SyncMeters? || step.AdjustMeter? || step.DispatchLubricants?
    ensures References(Apply(s, step)) && Safe(Apply(s, step))
  {
    match step
    case AddEquipment(who, e, contract, initial, current, meterType) =>
      var tx := Equipments.Created(s, who, e, contract, initial, current, meterType);
      if tx.Committed? { AddEquipmentSafe(s, tx.state, e); }
    case EditEquipment(who, e, patch, guards) =>
      if Equipments.Updated(s, who, e, patch, guards).Committed? { EditEquipmentSafe(s, who, e, patch, guards); }
    case SyncMeters(who, visible, raw) =>
      if Bulk.BulkSync(s, who, visible, raw).Committed? { SyncMetersSafe(s, who, visible, raw); }
    case AdjustMeter(who, dto) =>
      if Adjustments.Adjusted(s, who, dto).Committed? { AdjustMeterSafe(s, who, dto); }
    case DispatchLubricants(who, dto, warehouseOk, linesOk) =>
      if Lube.Dispatched(s, who, dto, warehouseOk, linesOk).Committed? {
        DispatchSafe(s, who, dto, warehouseOk, linesOk);
      }
  }

  /** The reports, and the escalation of one. */
  lemma ReportStepSafe(s: State, step: Step)
    requires References(s) && Safe(s)
    requires step.CreateReport? || step.UpsertReport? || step.ReportFault? || step.EscalateFault?
    ensures References(Apply(s, step)) && Safe(Apply(s, step))
  {
    match step
    case CreateReport(who, cfg, dto, env) =>
      if AvailabilityReports.Create(s, who, cfg, dto, env).Committed? { CreateReportSafe(s, who, cfg, dto, env); }
    case UpsertReport(who, cfg, dto, shift, env) =>
      if Upsert(s, who, cfg, dto, shift, env).Committed? { UpsertReportSafe(s, who, cfg, dto, shift, env); }
    case ReportFault(who, fault) =>
      if Faults.Create(s, who, fault).Committed? { FaultReportSafe(s, who, fault); }
    case EscalateFault(who, report) =>
      if Faults.Escalate(s, who, report).Committed? { EscalateSafe(s, who, report); }
  }

  /** Every step keeps safety, unless it is one of the three unguarded ones; those never keep it. */
  lemma StepSafeIff(s: State, step: Step)
    requires References(s) && Safe(s)
    ensures References(Apply(s, step))
    ensures Safe(Apply(s, step)) <==> !LeavesUnguarded(s, step)
  {
    if step.OpenOrder? || step.EditOrderImpact? || step.MoveOrder? || step.CloseOrder? {
      OrderStepSafeIff(s, step);
    } else if step.CreateReport? || step.UpsertReport? || step.ReportFault? || step.EscalateFault? {
      ReportStepSafe(s, step);
    } else {
      MeterStepSafe(s, step);
    }
  }

  // ------------------------------------------------------------------- runs

  /** No step of the run is unguarded in the state it meets. */
  ghost predicate Guarded(s: State, steps: seq<Step>) {
    forall k :: 0 <= k < |steps| ==> !LeavesUnguarded(Run(s, steps[..k]), steps[k])
  }

  /** A fleet without faults and orders is where runs may start. */
  lemma NoCausesIsSafe(s: State)
    requires s.faults == [] && s.orders == []
    ensures References(s) && Safe(s)
  {
  }

  lemma {:induction false} RunSafe(s: State, steps: seq<Step>)
    requires References(s) && Safe(s) && Guarded(s, steps)
    ensures References(Run(s, steps)) && Safe(Run(s, steps))
  {
    if steps != [] {
      var n := |steps| - 1;
      assert !LeavesUnguarded(Run(s, steps[..n]), steps[n]);
      forall k | 0 <= k < n
        ensures !LeavesUnguarded(Run(s, steps[..n][..k]), steps[..n][k])
      {
        assert steps[..n][..k] == steps[..k];
      }
      RunSafe(s, steps[..n]);
      StepSafeIff(Run(s, steps[..n]), steps[n]);
    }
  }

  /** The other steps never switch a flag on. */
  lemma OthersNeverReturn(s: State, step: Step, e: EquipmentId)
    requires e in s.equipment && !s.equipment[e].isOperational
    requires step.EscalateFault? || step.OpenOrder? || step.EditOrderImpact? || step.MoveOrder? || step.AddEquipment?
             || step.EditEquipment? || step.AdjustMeter? || step.DispatchLubricants?
    ensures e in Apply(s, step).equipment && !Apply(s, step).equipment[e].isOperational
  {
  }

  /** An equipment is put back in service only by a report or by the closing of an order, never with a cause left. */
  lemma ReturnOnlyWithoutCause(s: State, step: Step, e: EquipmentId)
    requires References(s) && e in s.equipment && !s.equipment[e].isOperational
    requires e in Apply(s, step).equipment && Apply(s, step).equipment[e].isOperational
    ensures match step
            case CreateReport(who, cfg, dto, _) =>
              && dto.equipmentId == e && !Blocked(s, s.equipment[e].tenant, e)
              && ReturnsToService(dto.status, PreviousFor(s, who, dto, ResolveShift(cfg, dto.shift), false))
            case UpsertReport(who, cfg, dto, shift, _) =>
              && dto.equipmentId == e && !Blocked(s, s.equipment[e].tenant, e)
              && ReturnsToService(dto.status, PreviousFor(s, who, dto, shift, true))
            case CloseOrder(who, o, left, _, _, _) =>
              && o < |s.orders| && s.orders[o].equipmentId == e && left
              && !Blocked(Apply(s, step), s.equipment[e].tenant, e)
            case _ => false
  {
    match step
    case CreateReport(who, cfg, dto, env) =>
      if AvailabilityReports.Create(s, who, cfg, dto, env).Committed? { CreateEffect(s, who, cfg, dto, env); }
    case UpsertReport(who, cfg, dto, shift, env) =>
      if Upsert(s, who, cfg, dto, shift, env).Committed? { UpsertEffect(s, who, cfg, dto, shift, env); }
    case ReportFault(who, fault) =>
      if Faults.Create(s, who, fault).Committed? { FaultReportEffect(s, who, fault); }
    case CloseOrder(who, o, left, meter, confirmed, guards) =>
      if Orders.Close(s, who, o, left, meter, confirmed, guards).Committed? {
        CloseMeaning(s, who, o, left, meter, confirmed, guards);
        assert Owns(s, s.orders[o].tenant, s.orders[o].equipmentId);
      }
    case SyncMeters(who, visible, raw) =>
      if Bulk.BulkSync(s, who, visible, raw).Committed? {
        Bulk.FirstErrorNone(raw);
        BulkKeepsFlags(s, who, visible, Bulk.Merged(raw));
      }
    case _ => OthersNeverReturn(s, step, e);
  }

  /** A concrete unguarded step: a new order with impact SI leaves its equipment operational and blocked. */
  lemma OpeningAnOrderCanBreakSafety()
    ensures exists s: State, step: Step ::
              References(s) && Safe(s) && step.OpenOrder? && !Safe(Apply(s, step))
  {
    var s := State(map[7 := Equipment(1, Some(5), true, 0, Hours)], [], [], [], [], [], map[], []);
    var step := OpenOrder(Caller(1, 9), 7, Si, true);
    assert References(s) && Safe(s);
    OpenOrderSafe(s, step.who, 7, Si, true);
    assert !Safe(Apply(s, step));
  }

  /** An equipment in service whose only order has the given impact and status, without any cause. */
  function OneOrder(impact: Option<AvailabilityImpact>, status: OtStatus): State {
    State(map[7 := Equipment(1, Some(5), true, 0, Hours)], [], [WorkOrder(1, 7, impact, status)], [], [], [], map[], [])
  }

  /** The same by an edit: an open order that affected nothing gets impact SI. */
  lemma EditingImpactCanBreakSafety()
    ensures exists s: State, step: Step ::
              References(s) && Safe(s) && step.EditOrderImpact? && !Safe(Apply(s, step))
  {
    var s := OneOrder(Some(No), OtOpen);
    var step := EditOrderImpact(Caller(1, 9), 0, Some(Si), true);
    assert References(s) && Safe(s);
    EditImpactSafe(s, step.who, 0, Some(Si), true);
    assert !Safe(Apply(s, step));
  }

  /** The same by a reopening: a closed order with impact SI goes back to OPEN. */
  lemma ReopeningCanBreakSafety()
    ensures exists s: State, step: Step ::
              References(s) && Safe(s) && step.MoveOrder? && !Safe(Apply(s, step))
  {
    var s := OneOrder(Some(Si), OtClosed);
    var step := MoveOrder(Caller(1, 9), 0, OtOpen);
    assert References(s) && Safe(s);
    MoveOrderSafe(s, step.who, 0, OtOpen);
    assert !Safe(Apply(s, step));
  }
}

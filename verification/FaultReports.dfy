/** Fault reports (M3): the criticality rules, and the escalation of a LOW report to a work order. */
module FaultReports {
  import opened Common
  import opened Tables
  import opened AvailabilityReports
  import opened MeterSync
  import opened Decimals
  import Orchestrator
  import Sequence

  datatype FaultDto = FaultDto(equipmentId: EquipmentId, meterAtFault: Option<int>, criticality: FaultCriticality)

  function NewReport(s: State, who: Caller, dto: FaultDto, contract: ContractId): Fault {
    Fault(who.tenant, dto.equipmentId, contract,
          Sequence.RfCorrelative(Sequence.LastNumber(s.counters, who.tenant, Sequence.FR_DOCUMENT_TYPE) + 1),
          dto.criticality, FaultOpen, None, dto.meterAtFault)
  }

  /** Steps 2 to 4: correlative, report in state OPEN, meter if it advances. */
  function Recorded(s: State, who: Caller, dto: FaultDto, contract: ContractId): State
    requires dto.equipmentId in s.equipment
  {
    MeterAdvanced(s.(faults := s.faults + [NewReport(s, who, dto, contract)],
                     counters := Sequence.Incremented(s.counters, who.tenant, Sequence.FR_DOCUMENT_TYPE)),
                  dto.equipmentId, dto.meterAtFault, FaultReading, |s.faults|, who.userId)
  }

  /** A new OPEN work order for the equipment; the report is linked to it. */
  function LinkedToNewOrder(s: State, report: nat, impact: AvailabilityImpact): State
    requires report < |s.faults|
  {
    var f := s.faults[report];
    s.(orders := s.orders + [WorkOrder(f.tenant, f.equipmentId, Some(impact), OtOpen)],
       faults := s.faults[report := f.(workOrderId := Some(|s.orders|), status := FaultLinked)])
  }

  /** `create`: HIGH and MEDIUM get a work order, HIGH also takes the equipment out of service. */
  function Create(s: State, who: Caller, dto: FaultDto): Tx<nat> {
    if !Owns(s, who.tenant, dto.equipmentId) then Aborted(EquipmentNotFound)
    else if s.equipment[dto.equipmentId].contract.None? then Aborted(NoContract)
    else
      var report := |s.faults|;
      var s1 := Recorded(s, who, dto, s.equipment[dto.equipmentId].contract.value);
      match dto.criticality
      case Low => Committed(s1, report)
      case Medium => Committed(LinkedToNewOrder(s1, report, No), report)
      case High =>
        Committed(Orchestrator.WithOperational(LinkedToNewOrder(s1, report, Si), dto.equipmentId, false), report)
  }

  /** `createWorkOrderFromReport`: only an OPEN report of LOW criticality. */
  function Escalate(s: State, who: Caller, report: nat): Tx<nat> {
    if !(report < |s.faults| && s.faults[report].tenant == who.tenant) then Aborted(ReportNotFound)
    else if s.faults[report].status != FaultOpen then Aborted(ReportNotOpen)
    else if s.faults[report].criticality != Low then Aborted(ReportNotLow)
    else Committed(LinkedToNewOrder(s, report, No), report)
  }

  /** Every fault report on an own equipment with a contract is accepted, in service or not; the others have their reason. */
  lemma CreatedIff(s: State, who: Caller, dto: FaultDto)
    ensures var known := dto.equipmentId in s.equipment && s.equipment[dto.equipmentId].tenant == who.tenant;
            var tx := Create(s, who, dto);
            && (tx.Committed? <==> known && s.equipment[dto.equipmentId].contract != None)
            && (tx == Aborted(EquipmentNotFound) <==> !known)
            && (tx == Aborted(NoContract) <==> known && s.equipment[dto.equipmentId].contract == None)
  {
  }

  /** Exactly an OPEN report of LOW criticality of the tenant is escalated; the reasons are checked in this order. */
  lemma EscalatedIff(s: State, who: Caller, report: nat)
    ensures var own := report < |s.faults| && s.faults[report].tenant == who.tenant;
            var tx := Escalate(s, who, report);
            && (tx.Committed? <==> own && s.faults[report].status == FaultOpen && s.faults[report].criticality == Low)
            && (tx == Aborted(ReportNotFound) <==> !own)
            && (tx == Aborted(ReportNotOpen) <==> own && s.faults[report].status != FaultOpen)
            && (tx == Aborted(ReportNotLow) <==>
                  own && s.faults[report].status == FaultOpen && s.faults[report].criticality != Low)
  {
  }

  /** An escalated report is LINKED to a new OPEN order of its equipment with impact NO; nothing else changes. */
  lemma EscalatedResult(s: State, who: Caller, report: nat)
    requires Escalate(s, who, report).Committed?
    ensures var s' := Escalate(s, who, report).state;
            var f := s.faults[report];
            && s' == s.(faults := s'.faults, orders := s'.orders)
            && s'.orders == s.orders + [WorkOrder(f.tenant, f.equipmentId, Some(No), OtOpen)]
            && |s'.faults| == |s.faults|
            && s'.faults[report] == f.(status := FaultLinked, workOrderId := Some(|s.orders|))
            && (forall i :: 0 <= i < |s.faults| && i != report ==> s'.faults[i] == s.faults[i])
  {
  }

  /** The new report repeats its request, under the contract of its equipment and the next correlative of its tenant. */
  lemma NewReportRow(s: State, who: Caller, dto: FaultDto)
    requires Create(s, who, dto).Committed?
    ensures var s' := Create(s, who, dto).state;
            && |s'.faults| == |s.faults| + 1
            && var f := s'.faults[|s.faults|];
               && Some(f.contract) == s.equipment[dto.equipmentId].contract && f.meterAtFault == dto.meterAtFault
               && f.correlative == "RF-" + PadStart(Decimal(Sequence.LastNumber(s.counters, who.tenant, "FAULT_REP") + 1), 5)
               && Sequence.LastNumber(s'.counters, who.tenant, "FAULT_REP") ==
                  Sequence.LastNumber(s.counters, who.tenant, "FAULT_REP") + 1
  {
    Sequence.RfSpelled(Sequence.LastNumber(s.counters, who.tenant, "FAULT_REP") + 1);
  }

  /** The new report is open exactly when LOW; otherwise it names a new open order, with impact SI exactly when HIGH. */
  lemma ReportAndOrder(s: State, who: Caller, dto: FaultDto)
    requires Create(s, who, dto).Committed?
    ensures var s' := Create(s, who, dto).state;
            var r := Create(s, who, dto).value;
            && r == |s.faults| && |s'.faults| == r + 1 && s'.faults[..r] == s.faults
            && s'.faults[r].criticality == dto.criticality && OwnsFault(s'.faults[r], who, dto.equipmentId)
            && (s'.faults[r].status == FaultOpen <==> dto.criticality == Low)
            && (dto.criticality == Low ==> s'.orders == s.orders && s'.faults[r].workOrderId == None)
            && (dto.criticality != Low ==>
                  && s'.faults[r].workOrderId == Some(|s.orders|) && |s'.orders| == |s.orders| + 1
                  && s'.orders[..|s.orders|] == s.orders
                  && s'.orders[|s.orders|].equipmentId == dto.equipmentId && s'.orders[|s.orders|].tenant == who.tenant
                  && s'.orders[|s.orders|].status == OtOpen
                  && s'.orders[|s.orders|].impact == Some(if dto.criticality == High then Si else No))
  {
  }

  predicate OwnsFault(f: Fault, who: Caller, e: EquipmentId) {
    f.tenant == who.tenant && f.equipmentId == e
  }

  method LinkToNewOrder(db: Database, report: nat, impact: AvailabilityImpact)
    requires report < |db.faults|
    modifies db`orders, db`faults
    ensures db.Snapshot() == LinkedToNewOrder(old(db.Snapshot()), report, impact)
  {
    var f := db.faults[report];
    var workOrder := |db.orders|;
    db.orders := db.orders + [WorkOrder(f.tenant, f.equipmentId, Some(impact), OtOpen)];
    db.faults := db.faults[report := f.(workOrderId := Some(workOrder), status := FaultLinked)];
  }

  method CreateFaultReport(db: Database, who: Caller, dto: FaultDto) returns (out: Outcome<nat>)
    modifies db
    ensures Follows(old(db.Snapshot()), Create(old(db.Snapshot()), who, dto), db.Snapshot(), out)
  {
    var e := dto.equipmentId;
    if !(e in db.equipment && db.equipment[e].tenant == who.tenant) {
      return Failure(EquipmentNotFound);
    }
    if db.equipment[e].contract.None? {
      return Failure(NoContract);
    }
    var contract := db.equipment[e].contract.value;
    var correlative := Sequence.GetNextCorrelative(db, who.tenant, Sequence.FR_DOCUMENT_TYPE, Sequence.FR_PREFIX,
                                                   Sequence.FR_PAD_WIDTH);
    var report := |db.faults|;
    db.faults := db.faults + [Fault(who.tenant, e, contract, correlative, dto.criticality, FaultOpen, None, dto.meterAtFault)];
    AdvanceMeter(db, e, dto.meterAtFault, FaultReading, report, who.userId);
    if dto.criticality == High || dto.criticality == Medium {
      var isHigh := dto.criticality == High;
      LinkToNewOrder(db, report, if isHigh then Si else No);
      if isHigh {
        Orchestrator.SetOperational(db, e, false);
      }
    }
    return Success(report);
  }

  method CreateWorkOrderFromReport(db: Database, who: Caller, report: nat) returns (out: Outcome<nat>)
    modifies db
    ensures Follows(old(db.Snapshot()), Escalate(old(db.Snapshot()), who, report), db.Snapshot(), out)
  {
    if !(report < |db.faults| && db.faults[report].tenant == who.tenant) {
      return Failure(ReportNotFound);
    }
    if db.faults[report].status != FaultOpen {
      return Failure(ReportNotOpen);
    }
    if db.faults[report].criticality != Low {
      return Failure(ReportNotLow);
    }
    LinkToNewOrder(db, report, No);
    return Success(report);
  }
}

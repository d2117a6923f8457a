/** The operational transition that follows a persisted availability report. */
module Orchestrator {
  import opened Common
  import opened Tables
  import opened OperationalBlockers
  import opened Decimals
  import Sequence

  datatype SkipReason = ActiveFaultExists | NotApplicableStatus | NoContractForStub | BlockedByActiveCauses

  datatype Transition = Transition(equipmentId: EquipmentId, isOperational: bool, faultReportId: Option<nat>,
                                   correlative: Option<string>, createdFaultReport: bool,
                                   requiresFaultCompletion: bool, skippedReason: Option<SkipReason>,
                                   blockers: seq<Blocker>)

  datatype TransitionInput = TransitionInput(tenant: TenantId, equipmentId: EquipmentId,
                                             newStatus: OperationalStatus, previousStatus: Option<OperationalStatus>,
                                             meterReading: Option<int>, validated: Option<Decision>)

  predicate IsStop(status: OperationalStatus) {
    status in {DownFailure, DownMaintenance}
  }

  predicate OfEquipment(f: Fault, t: TenantId, e: EquipmentId) {
    f.tenant == t && f.equipmentId == e
  }

  /** findFirst, newest first, among the faults of the equipment in one status. */
  function NewestFault(faults: seq<Fault>, orders: seq<WorkOrder>, t: TenantId, e: EquipmentId, status: FaultStatus)
    : (r: Option<nat>)
    ensures r.Some? ==> r.value < |faults| && OfEquipment(faults[r.value], t, e) && faults[r.value].status == status
                        && ActiveFault(faults[r.value], orders)
    ensures forall i | 0 <= i < |faults| && OfEquipment(faults[i], t, e) && faults[i].status == status
                       && ActiveFault(faults[i], orders) :: r.Some? && i <= r.value
  {
    if faults == [] then None
    else
      var last := |faults| - 1;
      if OfEquipment(faults[last], t, e) && faults[last].status == status && ActiveFault(faults[last], orders)
      then Some(last)
      else NewestFault(faults[..last], orders, t, e, status)
  }

  /** The newest OPEN fault, else the newest LINKED one whose order is not closed. */
  function FindActiveFault(s: State, t: TenantId, e: EquipmentId): (r: Option<nat>)
    ensures r.Some? ==> r.value < |s.faults| && OfEquipment(s.faults[r.value], t, e)
                        && ActiveFault(s.faults[r.value], s.orders)
    ensures r.None? ==> forall i :: 0 <= i < |s.faults| && OfEquipment(s.faults[i], t, e) ==>
                                      !ActiveFault(s.faults[i], s.orders)
    ensures forall i :: 0 <= i < |s.faults| && OfEquipment(s.faults[i], t, e) && s.faults[i].status == FaultOpen ==>
                          r.Some? && s.faults[r.value].status == FaultOpen && i <= r.value
  {
    var open := NewestFault(s.faults, s.orders, t, e, FaultOpen);
    if open.Some? then open else NewestFault(s.faults, s.orders, t, e, FaultLinked)
  }

  function WithOperational(s: State, e: EquipmentId, operational: bool): State
    requires e in s.equipment
  {
    s.(equipment := s.equipment[e := s.equipment[e].(isOperational := operational)])
  }

  function Stub(s: State, input: TransitionInput, contract: ContractId): Fault {
    Fault(input.tenant, input.equipmentId, contract,
          Sequence.RfCorrelative(Sequence.LastNumber(s.counters, input.tenant, Sequence.FR_DOCUMENT_TYPE) + 1),
          Low, FaultOpen, None, input.meterReading)
  }

  function WithStub(s: State, input: TransitionInput, contract: ContractId): State {
    s.(faults := s.faults + [Stub(s, input, contract)],
       counters := Sequence.Incremented(s.counters, input.tenant, Sequence.FR_DOCUMENT_TYPE))
  }

  function StopTransition(s: State, input: TransitionInput): Tx<Transition>
    requires input.equipmentId in s.equipment
  {
    var e := input.equipmentId;
    var active := FindActiveFault(s, input.tenant, e);
    if active.Some? then
      Committed(WithOperational(s, e, false),
                Transition(e, false, active, Some(s.faults[active.value].correlative), false, false,
                           Some(ActiveFaultExists), []))
    else
      match s.equipment[e].contract
      case None =>
        Committed(WithOperational(s, e, false), Transition(e, false, None, None, false, false, Some(NoContractForStub), []))
      case Some(contract) =>
        Committed(WithOperational(WithStub(s, input, contract), e, false),
                  Transition(e, false, Some(|s.faults|), Some(Stub(s, input, contract).correlative), true, true, None, []))
  }

  /** The decision the orchestrator acts on: the caller's one when it is about this equipment. */
  function EffectiveDecision(s: State, input: TransitionInput): Decision {
    if input.validated.Some? && input.validated.value.tenant == input.tenant
       && input.validated.value.equipmentId == input.equipmentId
    then input.validated.value
    else Resolve(s, input.tenant, input.equipmentId, None)
  }

  function StatusChange(s: State, input: TransitionInput): Tx<Transition> {
    var e := input.equipmentId;
    if !Owns(s, input.tenant, e) then Aborted(EquipmentNotFound)
    else if IsStop(input.newStatus) then StopTransition(s, input)
    else if input.newStatus == Operational && input.previousStatus.Some? && IsStop(input.previousStatus.value) then
      var d := EffectiveDecision(s, input);
      if !d.allowed
      then Committed(s, Transition(e, false, None, None, false, false, Some(BlockedByActiveCauses), d.blockers))
      else Committed(WithOperational(s, e, true), Transition(e, true, None, None, false, false, None, []))
    else Committed(s, Transition(e, s.equipment[e].isOperational, None, None, false, false, Some(NotApplicableStatus), []))
  }

  method SetOperational(db: Database, e: EquipmentId, operational: bool)
    requires e in db.equipment
    modifies db`equipment
    ensures db.Snapshot() == WithOperational(old(db.Snapshot()), e, operational)
  {
    db.equipment := db.equipment[e := db.equipment[e].(isOperational := operational)];
  }

  method ApplyStopTransition(db: Database, input: TransitionInput) returns (t: Transition)
    requires input.equipmentId in db.equipment
    modifies db
    ensures StopTransition(old(db.Snapshot()), input) == Committed(db.Snapshot(), t)
  {
    var e := input.equipmentId;
    var contract := db.equipment[e].contract;
    var activeFault := FindActiveFault(db.Snapshot(), input.tenant, e);
    var faultReportId := activeFault;
    var correlative: Option<string> := None;
    var created := false;
    var skippedReason: Option<SkipReason> := None;
    if activeFault.None? {
      if contract.None? {
        skippedReason := Some(NoContractForStub);
      } else {
        var next := Sequence.GetNextCorrelative(db, input.tenant, Sequence.FR_DOCUMENT_TYPE, Sequence.FR_PREFIX,
                                                Sequence.FR_PAD_WIDTH);
        var stub := Fault(input.tenant, e, contract.value, next, Low, FaultOpen, None, input.meterReading);
        faultReportId := Some(|db.faults|);
        correlative := Some(next);
        db.faults := db.faults + [stub];
        created := true;
      }
    } else {
      correlative := Some(db.faults[activeFault.value].correlative);
      skippedReason := Some(ActiveFaultExists);
    }
    SetOperational(db, e, false);
    t := Transition(e, false, faultReportId, correlative, created, created, skippedReason, []);
  }

  method OnOperationalStatusChange(db: Database, input: TransitionInput) returns (out: Outcome<Transition>)
    modifies db
    ensures Follows(old(db.Snapshot()), StatusChange(old(db.Snapshot()), input), db.Snapshot(), out)
  {
    var e := input.equipmentId;
    if !(e in db.equipment && db.equipment[e].tenant == input.tenant) {
      return Failure(EquipmentNotFound);
    }
    if IsStop(input.newStatus) {
      var t := ApplyStopTransition(db, input);
      return Success(t);
    }
    if input.newStatus == Operational && input.previousStatus.Some? && IsStop(input.previousStatus.value) {
      var decision := input.validated;
      if decision.Some? && (decision.value.tenant != input.tenant || decision.value.equipmentId != e) {
        decision := None;
      }
      if decision.None? {
        var resolved := ResolveReturnToService(db, input.tenant, e, None);
        decision := Some(resolved);
      }
      if !decision.value.allowed {
        return Success(Transition(e, false, None, None, false, false, Some(BlockedByActiveCauses),
                                  decision.value.blockers));
      }
      SetOperational(db, e, true);
      return Success(Transition(e, true, None, None, false, false, None, []));
    }
    return Success(Transition(e, db.equipment[e].isOperational, None, None, false, false, Some(NotApplicableStatus), []));
  }

  // -------------------------------------------------------- the outcome, spelled out

  /** What a stop returns: the active fault it found, or the stub it created, or neither without a contract. */
  lemma StopResult(s: State, input: TransitionInput)
    requires input.equipmentId in s.equipment
    ensures var tx := StopTransition(s, input);
            && tx.Committed? && tx.value.equipmentId == input.equipmentId && !tx.value.isOperational
            && tx.value.blockers == [] && tx.value.requiresFaultCompletion == tx.value.createdFaultReport
            && (tx.value.skippedReason == None <==> tx.value.createdFaultReport)
            && (tx.value.faultReportId.Some? ==>
                  var id := tx.value.faultReportId.value;
                  id < |tx.state.faults| && tx.value.correlative == Some(tx.state.faults[id].correlative)
                  && OfEquipment(tx.state.faults[id], input.tenant, input.equipmentId))
            && (tx.value.createdFaultReport ==> tx.value.faultReportId == Some(|s.faults|))
            && (tx.value.skippedReason == Some(ActiveFaultExists) <==>
                  !tx.value.createdFaultReport && tx.value.faultReportId.Some?)
            && (tx.value.skippedReason == Some(NoContractForStub) <==>
                  tx.value.faultReportId == None && s.equipment[input.equipmentId].contract == None)
  {
  }

  /** The stub carries the reading of the report, the contract of the equipment and the next correlative. */
  lemma StubRow(s: State, input: TransitionInput)
    requires input.equipmentId in s.equipment && StopTransition(s, input).value.createdFaultReport
    ensures var s' := StopTransition(s, input).state;
            var number := Sequence.LastNumber(s.counters, input.tenant, "FAULT_REP") + 1;
            && s.equipment[input.equipmentId].contract.Some?
            && s'.faults == s.faults + [Fault(input.tenant, input.equipmentId, s.equipment[input.equipmentId].contract.value,
                                              "RF-" + PadStart(Decimal(number), 5), Low, FaultOpen, None, input.meterReading)]
            && s'.counters == s.counters[(input.tenant, "FAULT_REP") := number]
  {
    Sequence.RfSpelled(Sequence.LastNumber(s.counters, input.tenant, "FAULT_REP") + 1);
  }

  lemma ForeignIsEvaluated(s: State, input: TransitionInput)
    requires input.validated.Some? ==>
               input.validated.value.tenant != input.tenant || input.validated.value.equipmentId != input.equipmentId
    ensures EffectiveDecision(s, input) == Resolve(s, input.tenant, input.equipmentId, None)
  {
  }

  lemma ReturnByDecision(s: State, input: TransitionInput)
    requires input.equipmentId in s.equipment && s.equipment[input.equipmentId].tenant == input.tenant
    requires input.newStatus == Operational && input.previousStatus in {Some(DownFailure), Some(DownMaintenance)}
    ensures var tx := StatusChange(s, input);
            var d := EffectiveDecision(s, input);
            && tx.Committed?
            && (!d.allowed ==> tx.state == s && tx.value.skippedReason == Some(BlockedByActiveCauses)
                               && tx.value.blockers == d.blockers)
            && (d.allowed ==>
                  tx.state.equipment ==
                  s.equipment[input.equipmentId := s.equipment[input.equipmentId].(isOperational := true)])
  {
  }

  /** A decision about another equipment or tenant is not trusted: the causes are evaluated again. */
  lemma ForeignDecisionIgnored(s: State, input: TransitionInput)
    requires input.equipmentId in s.equipment && s.equipment[input.equipmentId].tenant == input.tenant
    requires input.newStatus == Operational && input.previousStatus in {Some(DownFailure), Some(DownMaintenance)}
    requires input.validated.Some? ==>
               input.validated.value.tenant != input.tenant || input.validated.value.equipmentId != input.equipmentId
    ensures var tx := StatusChange(s, input);
            && tx.Committed?
            && (if Blocked(s, input.tenant, input.equipmentId)
                then tx.state == s && tx.value.skippedReason == Some(BlockedByActiveCauses)
                     && tx.value.blockers == Blockers(s, input.tenant, input.equipmentId, None)
                else tx.state.equipment ==
                     s.equipment[input.equipmentId := s.equipment[input.equipmentId].(isOperational := true)])
  {
    ForeignIsEvaluated(s, input);
    ReturnByDecision(s, input);
    AllowedIffNotBlocked(s, input.tenant, input.equipmentId);
  }

  /** A change that is neither a stop nor a return writes nothing and reports the flag it found. */
  lemma OtherChangesWriteNothing(s: State, input: TransitionInput)
    requires input.newStatus !in {DownFailure, DownMaintenance}
    requires !(input.newStatus == Operational && input.previousStatus in {Some(DownFailure), Some(DownMaintenance)})
    ensures var own := input.equipmentId in s.equipment && s.equipment[input.equipmentId].tenant == input.tenant;
            var tx := StatusChange(s, input);
            if !own then tx == Aborted(EquipmentNotFound)
            else tx.Committed? && tx.state == s && tx.value.skippedReason == Some(NotApplicableStatus)
                 && tx.value.isOperational == s.equipment[input.equipmentId].isOperational
  {
  }

  /** A failure or maintenance stop of an own equipment always takes it out of service. */
  lemma StopsTakeOutOfService(s: State, input: TransitionInput)
    requires input.newStatus in {DownFailure, DownMaintenance}
    ensures var own := input.equipmentId in s.equipment && s.equipment[input.equipmentId].tenant == input.tenant;
            var tx := StatusChange(s, input);
            if !own then tx == Aborted(EquipmentNotFound)
            else tx.Committed? && tx.state.equipment ==
                 s.equipment[input.equipmentId := s.equipment[input.equipmentId].(isOperational := false)]
  {
  }
}

/** Equipment creation and manual update, as far as contract and meter are concerned. */
module EquipmentService {
  import opened Common
  import opened Tables
  import opened AvailabilityReports
  import opened MeterSync

  /**
   * The written fields of an update; None means the key is absent from the patch, and `others`
   * says whether any of the writable fields outside the model is present.
   */
  datatype Patch = Patch(contract: Option<Option<ContractId>>, meterType: Option<MeterType>, currentMeter: Option<int>,
                         others: bool)

  function Created(s: State, who: Caller, e: EquipmentId, contract: ContractId, initialMeter: int, currentMeter: int,
                   meterType: MeterType): Tx<EquipmentId> {
    if e in s.equipment then Aborted(UniqueConflict)
    else
      var s1 := s.(equipment := s.equipment[e := Equipment(who.tenant, Some(contract), true, currentMeter, meterType)]);
      Committed(MeterChanged(s1, MeterChange(who.tenant, e, initialMeter, currentMeter, ManualEntry, None, who.userId)), e)
  }

  function WithFields(s: State, e: EquipmentId, p: Patch): State
    requires e in s.equipment
  {
    var row := s.equipment[e];
    s.(equipment := s.equipment[e := row.(contract := p.contract.GetOr(row.contract),
                                          meterType := p.meterType.GetOr(row.meterType))])
  }

  /** `update`: a different meter goes through the log, forwards or backwards. */
  function Updated(s: State, who: Caller, e: EquipmentId, p: Patch, guards: bool): Tx<EquipmentId> {
    if !Owns(s, who.tenant, e) then Aborted(EquipmentNotFound)
    else if !guards then Aborted(OtherGuard)
    else if p == Patch(None, None, None, false) then Aborted(NothingToUpdate)
    else if p.currentMeter.Some?
    then Committed(WithFields(MeterChanged(s, MeterChange(who.tenant, e, s.equipment[e].currentMeter,
                                                          p.currentMeter.value, ManualEntry, None, who.userId)), e, p), e)
    else Committed(WithFields(s, e, p), e)
  }

  method CreateEquipment(db: Database, who: Caller, e: EquipmentId, contract: ContractId, initialMeter: int,
                         currentMeter: int, meterType: MeterType)
    returns (out: Outcome<EquipmentId>)
    modifies db
    ensures Follows(old(db.Snapshot()), Created(old(db.Snapshot()), who, e, contract, initialMeter, currentMeter, meterType),
                    db.Snapshot(), out)
  {
    if e in db.equipment {
      return Failure(UniqueConflict);
    }
    db.equipment := db.equipment[e := Equipment(who.tenant, Some(contract), true, currentMeter, meterType)];
    if initialMeter != currentMeter {
      ApplyCurrentMeterChange(db, MeterChange(who.tenant, e, initialMeter, currentMeter, ManualEntry, None, who.userId));
    }
    return Success(e);
  }

  method UpdateEquipment(db: Database, who: Caller, e: EquipmentId, p: Patch, guards: bool)
    returns (out: Outcome<EquipmentId>)
    modifies db
    ensures Follows(old(db.Snapshot()), Updated(old(db.Snapshot()), who, e, p, guards), db.Snapshot(), out)
  {
    if !(e in db.equipment && db.equipment[e].tenant == who.tenant) {
      return Failure(EquipmentNotFound);
    }
    if !guards {
      return Failure(OtherGuard);
    }
    if p == Patch(None, None, None, false) {
      return Failure(NothingToUpdate);
    }
    var existing := db.equipment[e];
    if p.currentMeter.Some? && p.currentMeter.value != existing.currentMeter {
      ApplyCurrentMeterChange(db, MeterChange(who.tenant, e, existing.currentMeter, p.currentMeter.value, ManualEntry,
                                              None, who.userId));
    }
    var row := db.equipment[e];
    db.equipment := db.equipment[e := row.(contract := p.contract.GetOr(row.contract),
                                           meterType := p.meterType.GetOr(row.meterType))];
    return Success(e);
  }

  // -------------------------------------------------------- the outcome, spelled out

  /** A new equipment starts in service, under its contract, with one log row when its two meters differ. */
  lemma CreatedExact(s: State, who: Caller, e: EquipmentId, contract: ContractId, initialMeter: int, currentMeter: int,
                     meterType: MeterType)
    ensures var tx := Created(s, who, e, contract, initialMeter, currentMeter, meterType);
            && (tx == Aborted(UniqueConflict) <==> e in s.equipment)
            && (e !in s.equipment ==>
                  && tx.Committed?
                  && tx.state.equipment == s.equipment[e := Equipment(who.tenant, Some(contract), true, currentMeter, meterType)]
                  && tx.state.meterLog == s.meterLog
                                          + (if initialMeter == currentMeter then []
                                             else [MeterLog(who.tenant, e, initialMeter, currentMeter, ManualEntry, None,
                                                            who.userId)])
                  && tx.state == s.(equipment := tx.state.equipment, meterLog := tx.state.meterLog))
  {
  }

  /** An update of an own equipment with some field present writes the present fields, and logs a meter that differs. */
  lemma UpdatedExact(s: State, who: Caller, e: EquipmentId, p: Patch, guards: bool)
    ensures var own := e in s.equipment && s.equipment[e].tenant == who.tenant;
            var empty := p.contract == None && p.meterType == None && p.currentMeter == None && !p.others;
            var tx := Updated(s, who, e, p, guards);
            && (tx == Aborted(EquipmentNotFound) <==> !own)
            && (tx == Aborted(OtherGuard) <==> own && !guards)
            && (tx == Aborted(NothingToUpdate) <==> own && guards && empty)
            && (own && guards && !empty ==>
                  var row := s.equipment[e];
                  var meter := if p.currentMeter == None then row.currentMeter else p.currentMeter.value;
                  && tx.Committed?
                  && tx.state.equipment ==
                     s.equipment[e := row.(currentMeter := meter,
                                           contract := if p.contract == None then row.contract else p.contract.value,
                                           meterType := if p.meterType == None then row.meterType else p.meterType.value)]
                  && tx.state.meterLog == s.meterLog
                                          + (if meter == row.currentMeter then []
                                             else [MeterLog(who.tenant, e, row.currentMeter, meter, ManualEntry, None,
                                                            who.userId)])
                  && tx.state == s.(equipment := tx.state.equipment, meterLog := tx.state.meterLog))
  {
  }
}

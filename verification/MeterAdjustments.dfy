/** Manual meter adjustments: the only operation besides the equipment update that may turn a meter back. */
module MeterAdjustments {
  import opened Common
  import opened Tables
  import opened TextTools
  import opened AvailabilityReports
  import opened MeterSync

  const MIN_REASON := 15

  datatype AdjustDto = AdjustDto(equipmentId: EquipmentId, oldValue: int, newValue: int, reason: Option<string>)

  function Adjusted(s: State, who: Caller, dto: AdjustDto): Tx<nat> {
    var e := dto.equipmentId;
    if !Owns(s, who.tenant, e) then Aborted(EquipmentNotFound)
    else if dto.oldValue < 0 || dto.newValue < 0 then Aborted(NegativeMeter)
    else if dto.newValue < s.equipment[e].currentMeter && |Trim(dto.reason.GetOr(""))| < MIN_REASON
    then Aborted(ReasonRequired)
    else
      var a := |s.adjustments|;
      var s1 := s.(adjustments := s.adjustments + [Adjustment(e, who.userId, dto.oldValue, dto.newValue)]);
      Committed(MeterChanged(s1, MeterChange(who.tenant, e, s.equipment[e].currentMeter, dto.newValue, ManualEntry,
                                             Some(a), who.userId)), a)
  }

  /** `create`: the log row starts at the meter found, not at the old value the caller declares. */
  method AdjustMeter(db: Database, who: Caller, dto: AdjustDto) returns (out: Outcome<nat>)
    modifies db
    ensures Follows(old(db.Snapshot()), Adjusted(old(db.Snapshot()), who, dto), db.Snapshot(), out)
  {
    var e := dto.equipmentId;
    if !(e in db.equipment && db.equipment[e].tenant == who.tenant) {
      return Failure(EquipmentNotFound);
    }
    if dto.oldValue < 0 || dto.newValue < 0 {
      return Failure(NegativeMeter);
    }
    var current := db.equipment[e].currentMeter;
    if dto.newValue < current {
      var reason := Trim(dto.reason.GetOr(""));
      if |reason| < MIN_REASON {
        return Failure(ReasonRequired);
      }
    }
    var a := |db.adjustments|;
    db.adjustments := db.adjustments + [Adjustment(e, who.userId, dto.oldValue, dto.newValue)];
    ApplyCurrentMeterChange(db, MeterChange(who.tenant, e, current, dto.newValue, ManualEntry, Some(a), who.userId));
    return Success(a);
  }

  /** The meter goes back only for a reason of at least fifteen characters, and never below zero. */
  lemma BackwardsNeedsReason(s: State, who: Caller, dto: AdjustDto)
    requires Adjusted(s, who, dto).Committed?
    ensures dto.equipmentId in s.equipment && dto.equipmentId in Adjusted(s, who, dto).state.equipment
    ensures var before := s.equipment[dto.equipmentId].currentMeter;
            var after := Adjusted(s, who, dto).state.equipment[dto.equipmentId].currentMeter;
            && after >= 0
            && (after < before ==> dto.reason.Some? && |Trim(dto.reason.value)| >= 15)
  {
  }

  /** Which adjustments are accepted; the reasons are checked in this order. */
  lemma AdjustedIff(s: State, who: Caller, dto: AdjustDto)
    ensures var own := dto.equipmentId in s.equipment && s.equipment[dto.equipmentId].tenant == who.tenant;
            var positive := dto.oldValue >= 0 && dto.newValue >= 0;
            var tx := Adjusted(s, who, dto);
            && (tx == Aborted(EquipmentNotFound) <==> !own)
            && (tx == Aborted(NegativeMeter) <==> own && !positive)
            && (tx.Committed? <==>
                  own && positive
                  && (dto.newValue >= s.equipment[dto.equipmentId].currentMeter
                      || (dto.reason.Some? && |Trim(dto.reason.value)| >= 15)))
            && (tx.Aborted? && own && positive ==> tx == Aborted(ReasonRequired))
  {
    assert Trim("") == "";
  }

  /** The adjustment keeps what was declared; the log starts at the meter found, and the meter ends at the new value. */
  lemma AdjustedExact(s: State, who: Caller, dto: AdjustDto)
    requires Adjusted(s, who, dto).Committed?
    ensures var s' := Adjusted(s, who, dto).state;
            && s'.adjustments == s.adjustments + [Adjustment(dto.equipmentId, who.userId, dto.oldValue, dto.newValue)]
            && dto.equipmentId in s.equipment
            && var row := s.equipment[dto.equipmentId];
               && s'.equipment == s.equipment[dto.equipmentId := row.(currentMeter := dto.newValue)]
               && s'.meterLog == s.meterLog
                                 + (if dto.newValue == row.currentMeter then []
                                    else [MeterLog(who.tenant, dto.equipmentId, row.currentMeter, dto.newValue, ManualEntry,
                                                   Some(|s.adjustments|), who.userId)])
               && s' == s.(equipment := s'.equipment, meterLog := s'.meterLog, adjustments := s'.adjustments)
  {
  }
}

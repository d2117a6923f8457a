/**
 * Lubricant dispatches, as far as meter and counters are concerned: `warehouseOk` and
 * `linesOk` stand for the checks on warehouse, articles and stock.
 */
module LubeReports {
  import opened Common
  import opened Tables
  import opened AvailabilityReports
  import opened MeterSync
  import opened Decimals
  import Sequence

  const DOCUMENT_TYPE := "LUBE_RCL"
  const PREFIX := "RCL"

  datatype DispatchDto = DispatchDto(equipmentId: EquipmentId, meterReading: Option<int>)

  /** A reading ahead of the meter moves it; the log row names no origin. */
  function Read(s: State, who: Caller, dto: DispatchDto): State
    requires dto.equipmentId in s.equipment
  {
    var e := dto.equipmentId;
    if dto.meterReading.Some? && dto.meterReading.value > s.equipment[e].currentMeter
    then MeterChanged(s, MeterChange(who.tenant, e, s.equipment[e].currentMeter, dto.meterReading.value, ManualEntry,
                                     None, who.userId))
    else s
  }

  function Dispatched(s: State, who: Caller, dto: DispatchDto, warehouseOk: bool, linesOk: bool): Tx<string> {
    var e := dto.equipmentId;
    if !warehouseOk then Aborted(OtherGuard)
    else if !Owns(s, who.tenant, e) then Aborted(EquipmentNotFound)
    else if dto.meterReading.Some? && dto.meterReading.value < s.equipment[e].currentMeter
    then Aborted(MeterBelowCurrent)
    else if !linesOk then Aborted(OtherGuard)
    else
      Committed(Read(s, who, dto).(counters := Sequence.Incremented(s.counters, who.tenant, DOCUMENT_TYPE)),
                Sequence.Format(PREFIX, "-", Sequence.LastNumber(s.counters, who.tenant, DOCUMENT_TYPE) + 1, 5))
  }

  /** Each document type has its own counter. */
  lemma FaultCounterKept(counters: Sequence.Counters, tenant: TenantId)
    ensures forall t :: Sequence.LastNumber(Sequence.Incremented(counters, tenant, DOCUMENT_TYPE), t,
                                            Sequence.FR_DOCUMENT_TYPE)
                        == Sequence.LastNumber(counters, t, Sequence.FR_DOCUMENT_TYPE)
  {
    assert DOCUMENT_TYPE[0] != Sequence.FR_DOCUMENT_TYPE[0];
  }

  /** `createReport`: unlike the availability and fault reports it rejects a reading behind the meter. */
  method DispatchLubricants(db: Database, who: Caller, dto: DispatchDto, warehouseOk: bool, linesOk: bool)
    returns (out: Outcome<string>)
    modifies db
    ensures Follows(old(db.Snapshot()), Dispatched(old(db.Snapshot()), who, dto, warehouseOk, linesOk), db.Snapshot(), out)
  {
    var begin := db.Snapshot();
    if !warehouseOk {
      return Failure(OtherGuard);
    }
    var e := dto.equipmentId;
    if !(e in db.equipment && db.equipment[e].tenant == who.tenant) {
      return Failure(EquipmentNotFound);
    }
    if dto.meterReading.Some? {
      var current := db.equipment[e].currentMeter;
      if dto.meterReading.value < current {
        return Failure(MeterBelowCurrent);
      }
      if dto.meterReading.value > current {
        ApplyCurrentMeterChange(db, MeterChange(who.tenant, e, current, dto.meterReading.value, ManualEntry, None,
                                                who.userId));
      }
    }
    var correlative := Sequence.GetNextCorrelative(db, who.tenant, DOCUMENT_TYPE, PREFIX, 5);
    if !linesOk {
      db.Rollback(begin);
      return Failure(OtherGuard);
    }
    return Success(correlative);
  }

  /** Which dispatches are accepted, and everything one writes. */
  lemma DispatchedExact(s: State, who: Caller, dto: DispatchDto, warehouseOk: bool, linesOk: bool)
    ensures var own := dto.equipmentId in s.equipment && s.equipment[dto.equipmentId].tenant == who.tenant;
            var tx := Dispatched(s, who, dto, warehouseOk, linesOk);
            && (tx == Aborted(EquipmentNotFound) <==> warehouseOk && !own)
            && (tx.Committed? <==>
                  warehouseOk && own && linesOk
                  && (dto.meterReading.None? || dto.meterReading.value >= s.equipment[dto.equipmentId].currentMeter))
            && (tx == Aborted(MeterBelowCurrent) <==>
                  warehouseOk && own && dto.meterReading.Some?
                  && dto.meterReading.value < s.equipment[dto.equipmentId].currentMeter)
            && (tx.Committed? ==>
                  var row := s.equipment[dto.equipmentId];
                  var meter := dto.meterReading.GetOr(row.currentMeter);
                  var number := Sequence.LastNumber(s.counters, who.tenant, "LUBE_RCL") + 1;
                  && tx.value == "RCL" + "-" + PadStart(Decimal(number), 5)
                  && tx.state.counters == s.counters[(who.tenant, "LUBE_RCL") := number]
                  && tx.state.equipment == s.equipment[dto.equipmentId := row.(currentMeter := meter)]
                  && tx.state.meterLog == s.meterLog
                                          + (if meter == row.currentMeter then []
                                             else [MeterLog(who.tenant, dto.equipmentId, row.currentMeter, meter,
                                                            ManualEntry, None, who.userId)])
                  && tx.state == s.(counters := tx.state.counters, equipment := tx.state.equipment,
                                    meterLog := tx.state.meterLog))
  {
  }
}

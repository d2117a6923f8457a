/** The only writer of `currentMeter` after creation: it appends a log row and overwrites the meter. */
module MeterSync {
  import opened Common
  import opened Tables

  datatype MeterChange = MeterChange(tenant: TenantId, equipmentId: EquipmentId, oldMeter: int, newMeter: int,
                                     source: MeterSource, sourceId: Option<nat>, userId: UserId)

  function LogRow(c: MeterChange): MeterLog {
    MeterLog(c.tenant, c.equipmentId, c.oldMeter, c.newMeter, c.source, c.sourceId, c.userId)
  }

  function MeterChanged(s: State, c: MeterChange): State
    requires c.equipmentId in s.equipment
  {
    if c.oldMeter == c.newMeter then s
    else s.(meterLog := s.meterLog + [LogRow(c)],
            equipment := s.equipment[c.equipmentId := s.equipment[c.equipmentId].(currentMeter := c.newMeter)])
  }

  method ApplyCurrentMeterChange(db: Database, c: MeterChange)
    requires c.equipmentId in db.equipment
    modifies db`equipment, db`meterLog
    ensures db.Snapshot() == MeterChanged(old(db.Snapshot()), c)
  {
    if c.oldMeter == c.newMeter {
      return;
    }
    db.meterLog := db.meterLog + [LogRow(c)];
    db.equipment := db.equipment[c.equipmentId := db.equipment[c.equipmentId].(currentMeter := c.newMeter)];
  }

  /** A declared reading moves the meter only when it is ahead of it; otherwise it is ignored. */
  function MeterAdvanced(s: State, e: EquipmentId, reading: Option<int>, source: MeterSource, sourceId: nat,
                         userId: UserId): State
    requires e in s.equipment
  {
    if reading.Some? && reading.value > s.equipment[e].currentMeter
    then MeterChanged(s, MeterChange(s.equipment[e].tenant, e, s.equipment[e].currentMeter, reading.value, source,
                                     Some(sourceId), userId))
    else s
  }

  method AdvanceMeter(db: Database, e: EquipmentId, reading: Option<int>, source: MeterSource, sourceId: nat,
                      userId: UserId)
    requires e in db.equipment
    modifies db`equipment, db`meterLog
    ensures db.Snapshot() == MeterAdvanced(old(db.Snapshot()), e, reading, source, sourceId, userId)
  {
    var equipment := db.equipment[e];
    if reading.Some? && reading.value > equipment.currentMeter {
      ApplyCurrentMeterChange(db, MeterChange(equipment.tenant, e, equipment.currentMeter, reading.value, source,
                                              Some(sourceId), userId));
    }
  }

  // --------------------------------------------------------------- the log chain

  ghost predicate IsLast(log: seq<MeterLog>, e: EquipmentId, i: int) {
    0 <= i < |log| && log[i].equipmentId == e && forall j :: i < j < |log| ==> log[j].equipmentId != e
  }

  /** Rows i and j are consecutive in the log of their equipment. */
  ghost predicate Consecutive(log: seq<MeterLog>, i: int, j: int) {
    0 <= i < j < |log| && log[i].equipmentId == log[j].equipmentId
    && forall k :: i < k < j ==> log[k].equipmentId != log[j].equipmentId
  }

  /** Each log row starts where the previous one of its equipment ended; the last one ends at the current meter. */
  ghost predicate Chained(s: State) {
    && (forall i, j :: Consecutive(s.meterLog, i, j) ==> s.meterLog[j].oldValue == s.meterLog[i].newValue)
    && (forall e, i :: e in s.equipment && IsLast(s.meterLog, e, i) ==>
                         s.equipment[e].currentMeter == s.meterLog[i].newValue)
    && (forall i :: 0 <= i < |s.meterLog| ==> s.meterLog[i].equipmentId in s.equipment)
  }

  /** The chain survives every change that declares the meter it found. */
  lemma MeterChangedChained(s: State, c: MeterChange)
    requires Chained(s) && c.equipmentId in s.equipment && c.oldMeter == s.equipment[c.equipmentId].currentMeter
    ensures Chained(MeterChanged(s, c))
  {
    var s' := MeterChanged(s, c);
    if s' != s {
      var log, log' := s.meterLog, s'.meterLog;
      assert forall k :: 0 <= k < |log| ==> log[k] == log'[k];
      forall i, j | Consecutive(log', i, j)
        ensures log'[j].oldValue == log'[i].newValue
      {
        if j < |log| {
          assert Consecutive(log, i, j);
        } else {
          assert IsLast(log, c.equipmentId, i);
        }
      }
      forall e, i | e in s'.equipment && IsLast(log', e, i)
        ensures s'.equipment[e].currentMeter == log'[i].newValue
      {
        if e != c.equipmentId {
          assert IsLast(log, e, i);
        } else {
          assert log'[|log|].equipmentId == e;
        }
      }
    }
  }

  /** Writes that leave meters and log alone keep the chain; new equipment starts without log rows. */
  lemma ChainedFrame(s: State, s': State)
    requires Chained(s) && s'.meterLog == s.meterLog
    requires s.equipment.Keys <= s'.equipment.Keys
    requires forall e :: e in s.equipment ==> s'.equipment[e].currentMeter == s.equipment[e].currentMeter
    ensures Chained(s')
  {
  }

  /** A change to another value writes the meter and one log row that repeats the change; nothing else moves. */
  lemma MeterChangeSpelled(s: State, tenant: TenantId, e: EquipmentId, oldMeter: int, newMeter: int, source: MeterSource,
                           sourceId: Option<nat>, userId: UserId)
    requires e in s.equipment && oldMeter != newMeter
    ensures MeterChanged(s, MeterChange(tenant, e, oldMeter, newMeter, source, sourceId, userId)) ==
            s.(equipment := s.equipment[e := s.equipment[e].(currentMeter := newMeter)],
               meterLog := s.meterLog + [MeterLog(tenant, e, oldMeter, newMeter, source, sourceId, userId)])
  {
  }
}

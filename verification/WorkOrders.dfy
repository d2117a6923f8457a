/**
 * The parts of the work order service that decide whether an equipment is blocked or in
 * service. `guards` stands for the checks on fields the model does not carry.
 */
module WorkOrders {
  import opened Common
  import opened Tables
  import opened AvailabilityReports
  import opened MeterSync
  import opened OperationalBlockers
  import Orchestrator

  /** Largest reading step accepted without confirmation. */
  function JumpLimit(meterType: MeterType): int {
    match meterType
    case Kilometers => 500
    case Hours => 24
  }

  predicate OwnsOrder(s: State, who: Caller, o: nat) {
    o < |s.orders| && s.orders[o].tenant == who.tenant && s.orders[o].equipmentId in s.equipment
  }

  /** `create`: a new OPEN order; the equipment's operational flag is not touched. */
  function Open(s: State, who: Caller, e: EquipmentId, impact: AvailabilityImpact, guards: bool): Tx<nat> {
    if !Owns(s, who.tenant, e) then Aborted(EquipmentNotFound)
    else if !guards then Aborted(OtherGuard)
    else Committed(s.(orders := s.orders + [WorkOrder(who.tenant, e, Some(impact), OtOpen)]), |s.orders|)
  }

  /** `update` of affectsAvailability on an order that is not closed. */
  function EditImpact(s: State, who: Caller, o: nat, impact: Option<AvailabilityImpact>, guards: bool): Tx<nat> {
    if !OwnsOrder(s, who, o) then Aborted(OrderNotFound)
    else if s.orders[o].status == OtClosed then Aborted(OrderAlreadyClosed)
    else if !guards then Aborted(OtherGuard)
    else Committed(s.(orders := s.orders[o := s.orders[o].(impact := impact)]), o)
  }

  /** `updateStatus` to any status but CLOSED; entering IN_PROGRESS with impact SI stops the equipment. */
  function Move(s: State, who: Caller, o: nat, status: OtStatus): Tx<nat>
    requires status != OtClosed
  {
    if !OwnsOrder(s, who, o) then Aborted(OrderNotFound)
    else
      var order := s.orders[o];
      var s1 := s.(orders := s.orders[o := order.(status := status)]);
      if status == OtInProgress && order.status != OtInProgress && order.impact == Some(Si)
      then Committed(Orchestrator.WithOperational(s1, order.equipmentId, false), o)
      else Committed(s1, o)
  }

  function MetersOnClose(s: State, who: Caller, o: nat, finalMeter: Option<int>): State
    requires o < |s.orders| && s.orders[o].equipmentId in s.equipment
  {
    var e := s.orders[o].equipmentId;
    if finalMeter.None? then s
    else MeterChanged(s, MeterChange(who.tenant, e, s.equipment[e].currentMeter, finalMeter.value, OrderClosure,
                                     Some(o), who.userId))
  }

  /** `updateStatus` to CLOSED: order, meter, then the operational flag from the remaining blockers. */
  function Close(s: State, who: Caller, o: nat, leftOperational: bool, finalMeter: Option<int>, confirmedJump: bool,
                 guards: bool): Tx<nat> {
    if !OwnsOrder(s, who, o) then Aborted(OrderNotFound)
    else if s.orders[o].status == OtClosed then Aborted(OrderAlreadyClosed)
    else if !guards then Aborted(OtherGuard)
    else
      var e := s.orders[o].equipmentId;
      var s1 := s.(orders := s.orders[o := s.orders[o].(status := OtClosed)]);
      if finalMeter.Some? && finalMeter.value < s.equipment[e].currentMeter then Aborted(MeterBelowCurrent)
      else if finalMeter.Some? && finalMeter.value - s.equipment[e].currentMeter > JumpLimit(s.equipment[e].meterType)
              && !confirmedJump
      then Aborted(MeterJumpNotConfirmed)
      else
        var s2 := MetersOnClose(s1, who, o, finalMeter);
        var effective := leftOperational && Resolve(s2, who.tenant, e, Some(o)).allowed;
        Committed(Orchestrator.WithOperational(s2, e, effective), o)
  }

  method OpenOrder(db: Database, who: Caller, e: EquipmentId, impact: AvailabilityImpact, guards: bool)
    returns (out: Outcome<nat>)
    modifies db`orders
    ensures Follows(old(db.Snapshot()), Open(old(db.Snapshot()), who, e, impact, guards), db.Snapshot(), out)
  {
    if !(e in db.equipment && db.equipment[e].tenant == who.tenant) {
      return Failure(EquipmentNotFound);
    }
    if !guards {
      return Failure(OtherGuard);
    }
    var o := |db.orders|;
    db.orders := db.orders + [WorkOrder(who.tenant, e, Some(impact), OtOpen)];
    return Success(o);
  }

  method UpdateImpact(db: Database, who: Caller, o: nat, impact: Option<AvailabilityImpact>, guards: bool)
    returns (out: Outcome<nat>)
    modifies db`orders
    ensures Follows(old(db.Snapshot()), EditImpact(old(db.Snapshot()), who, o, impact, guards), db.Snapshot(), out)
  {
    if !OwnsOrder(db.Snapshot(), who, o) {
      return Failure(OrderNotFound);
    }
    if db.orders[o].status == OtClosed {
      return Failure(OrderAlreadyClosed);
    }
    if !guards {
      return Failure(OtherGuard);
    }
    db.orders := db.orders[o := db.orders[o].(impact := impact)];
    return Success(o);
  }

  method UpdateStatus(db: Database, who: Caller, o: nat, status: OtStatus) returns (out: Outcome<nat>)
    requires status != OtClosed
    modifies db`orders, db`equipment
    ensures Follows(old(db.Snapshot()), Move(old(db.Snapshot()), who, o, status), db.Snapshot(), out)
  {
    if !OwnsOrder(db.Snapshot(), who, o) {
      return Failure(OrderNotFound);
    }
    var existing := db.orders[o];
    db.orders := db.orders[o := existing.(status := status)];
    if status == OtInProgress && existing.status != OtInProgress && existing.impact == Some(Si) {
      Orchestrator.SetOperational(db, existing.equipmentId, false);
    }
    return Success(o);
  }

  method CloseOrder(db: Database, who: Caller, o: nat, leftOperational: bool, finalMeter: Option<int>,
                    confirmedJump: bool, guards: bool)
    returns (out: Outcome<nat>)
    modifies db
    ensures Follows(old(db.Snapshot()),
                    Close(old(db.Snapshot()), who, o, leftOperational, finalMeter, confirmedJump, guards),
                    db.Snapshot(), out)
  {
    var begin := db.Snapshot();
    if !OwnsOrder(begin, who, o) {
      return Failure(OrderNotFound);
    }
    if db.orders[o].status == OtClosed {
      return Failure(OrderAlreadyClosed);
    }
    if !guards {
      return Failure(OtherGuard);
    }
    var e := db.orders[o].equipmentId;
    db.orders := db.orders[o := db.orders[o].(status := OtClosed)];
    if finalMeter.Some? {
      var current := db.equipment[e].currentMeter;
      if finalMeter.value < current {
        db.Rollback(begin);
        return Failure(MeterBelowCurrent);
      }
      if finalMeter.value - current > JumpLimit(db.equipment[e].meterType) && !confirmedJump {
        db.Rollback(begin);
        return Failure(MeterJumpNotConfirmed);
      }
      ApplyCurrentMeterChange(db, MeterChange(who.tenant, e, current, finalMeter.value, OrderClosure, Some(o), who.userId));
    }
    var effective := false;
    if leftOperational {
      var decision := ResolveReturnToService(db, who.tenant, e, Some(o));
      effective := decision.allowed;
    }
    Orchestrator.SetOperational(db, e, effective);
    return Success(o);
  }

  // -------------------------------------------------------- the outcome, spelled out

  /** The order exists in the tenant, and so does its equipment. */
  predicate Known(s: State, who: Caller, o: nat) {
    o < |s.orders| && s.orders[o].tenant == who.tenant && s.orders[o].equipmentId in s.equipment
  }

  /** A new order is accepted exactly for an own equipment that passes the other checks. */
  lemma OpenedExact(s: State, who: Caller, e: EquipmentId, impact: AvailabilityImpact, guards: bool)
    ensures var own := e in s.equipment && s.equipment[e].tenant == who.tenant;
            var tx := Open(s, who, e, impact, guards);
            && (tx == Aborted(EquipmentNotFound) <==> !own)
            && (tx == Aborted(OtherGuard) <==> own && !guards)
            && (own && guards ==>
                  tx == Committed(s.(orders := s.orders + [WorkOrder(who.tenant, e, Some(impact), OtOpen)]), |s.orders|))
  {
  }

  /** The impact is edited exactly on a known order that is not closed, and nothing else is. */
  lemma EditedExact(s: State, who: Caller, o: nat, impact: Option<AvailabilityImpact>, guards: bool)
    ensures var tx := EditImpact(s, who, o, impact, guards);
            && (tx == Aborted(OrderNotFound) <==> !Known(s, who, o))
            && (tx == Aborted(OrderAlreadyClosed) <==> Known(s, who, o) && s.orders[o].status == OtClosed)
            && (tx == Aborted(OtherGuard) <==> Known(s, who, o) && s.orders[o].status != OtClosed && !guards)
            && (Known(s, who, o) && s.orders[o].status != OtClosed && guards ==>
                  tx == Committed(s.(orders := s.orders[o := s.orders[o].(impact := impact)]), o))
  {
  }

  /** A known order takes any live status; only entering IN_PROGRESS with impact SI touches the equipment's flag. */
  lemma MovedExact(s: State, who: Caller, o: nat, status: OtStatus)
    requires status != OtClosed
    ensures var tx := Move(s, who, o, status);
            && (tx == Aborted(OrderNotFound) <==> !Known(s, who, o))
            && (Known(s, who, o) ==>
                  var order := s.orders[o];
                  var stops := status == OtInProgress && order.status != OtInProgress && order.impact == Some(Si);
                  && tx.Committed?
                  && tx.state.orders == s.orders[o := order.(status := status)]
                  && tx.state == s.(orders := tx.state.orders, equipment := tx.state.equipment)
                  && tx.state.equipment ==
                     if stops
                     then s.equipment[order.equipmentId := s.equipment[order.equipmentId].(isOperational := false)]
                     else s.equipment)
  {
  }

  /** The final meter an order may be closed with: none, or not behind the meter and at most 24 hours or 500 kilometres ahead. */
  predicate MeterFits(row: Equipment, finalMeter: Option<int>, confirmedJump: bool) {
    finalMeter.Some? ==>
      && finalMeter.value >= row.currentMeter
      && (finalMeter.value - row.currentMeter <= (if row.meterType == Hours then 24 else 500) || confirmedJump)
  }

  /** Closing is accepted exactly for a known order that is not closed, passes the other checks, and whose final meter fits. */
  lemma ClosedIff(s: State, who: Caller, o: nat, left: bool, finalMeter: Option<int>, confirmedJump: bool, guards: bool)
    ensures var tx := Close(s, who, o, left, finalMeter, confirmedJump, guards);
            var open := Known(s, who, o) && s.orders[o].status != OtClosed;
            && (tx == Aborted(OrderNotFound) <==> !Known(s, who, o))
            && (tx == Aborted(OrderAlreadyClosed) <==> Known(s, who, o) && s.orders[o].status == OtClosed)
            && (tx == Aborted(OtherGuard) <==> open && !guards)
            && (tx.Committed? <==>
                  open && guards && MeterFits(s.equipment[s.orders[o].equipmentId], finalMeter, confirmedJump))
            && (tx == Aborted(MeterBelowCurrent) <==>
                  open && guards && finalMeter.Some?
                  && finalMeter.value < s.equipment[s.orders[o].equipmentId].currentMeter)
  {
  }

  /** The final meter becomes the equipment's meter, with a log row of the order when it differs. */
  lemma ClosedMeter(s: State, who: Caller, o: nat, left: bool, finalMeter: Option<int>, confirmedJump: bool, guards: bool)
    requires Close(s, who, o, left, finalMeter, confirmedJump, guards).Committed?
    ensures var s' := Close(s, who, o, left, finalMeter, confirmedJump, guards).state;
            var e := s.orders[o].equipmentId;
            && s'.orders == s.orders[o := s.orders[o].(status := OtClosed)]
            && e in s.equipment && e in s'.equipment
            && var before := s.equipment[e].currentMeter;
               && s'.equipment[e] == s.equipment[e].(currentMeter := finalMeter.GetOr(before),
                                                     isOperational := s'.equipment[e].isOperational)
               && s'.meterLog == s.meterLog
                                 + if finalMeter.None? || finalMeter.value == before then []
                                   else [MeterLog(who.tenant, e, before, finalMeter.value, OrderClosure, Some(o), who.userId)]
  {
  }
}

/** Which causes keep an equipment out of service. */
module OperationalBlockers {
  import opened Common
  import opened Tables

  datatype Decision = Decision(tenant: TenantId, equipmentId: EquipmentId, allowed: bool, blockers: seq<Blocker>)

  /** OPEN, or LINKED without an order, or LINKED to an order that is not closed. */
  predicate ActiveFault(f: Fault, orders: seq<WorkOrder>) {
    || f.status == FaultOpen
    || (f.status == FaultLinked
        && (f.workOrderId.None? || (f.workOrderId.value < |orders| && orders[f.workOrderId.value].status != OtClosed)))
  }

  predicate BlockingFault(f: Fault, orders: seq<WorkOrder>, t: TenantId, e: EquipmentId) {
    f.tenant == t && f.equipmentId == e && f.criticality == High && ActiveFault(f, orders)
  }

  predicate BlockingOrder(o: WorkOrder, t: TenantId, e: EquipmentId) {
    o.tenant == t && o.equipmentId == e && o.impact == Some(Si) && o.status in {OtOpen, OtInProgress, OtOnHold}
  }

  /** findMany of the blocking faults, newest first. */
  function BlockingFaults(faults: seq<Fault>, orders: seq<WorkOrder>, t: TenantId, e: EquipmentId): (ids: seq<nat>)
    ensures forall i :: i in ids <==> 0 <= i < |faults| && BlockingFault(faults[i], orders, t, e)
    ensures forall j, k :: 0 <= j < k < |ids| ==> ids[j] > ids[k]
  {
    if faults == [] then []
    else
      var last := |faults| - 1;
      var rest := BlockingFaults(faults[..last], orders, t, e);
      assert forall k :: 0 <= k < |rest| ==> rest[k] in rest;
      (if BlockingFault(faults[last], orders, t, e) then [last] else []) + rest
  }

  /** findMany of the blocking work orders, newest first, without the excluded one. */
  function BlockingOrders(orders: seq<WorkOrder>, t: TenantId, e: EquipmentId, exclude: Option<nat>): (ids: seq<nat>)
    ensures forall i :: i in ids <==> 0 <= i < |orders| && BlockingOrder(orders[i], t, e) && exclude != Some(i)
    ensures forall j, k :: 0 <= j < k < |ids| ==> ids[j] > ids[k]
  {
    if orders == [] then []
    else
      var last := |orders| - 1;
      var rest := BlockingOrders(orders[..last], t, e, exclude);
      assert forall k :: 0 <= k < |rest| ==> rest[k] in rest;
      (if BlockingOrder(orders[last], t, e) && exclude != Some(last) then [last] else []) + rest
  }

  function FaultCauses(s: State, t: TenantId, e: EquipmentId): seq<Blocker> {
    var ids := BlockingFaults(s.faults, s.orders, t, e);
    seq(|ids|, k requires 0 <= k < |ids| =>
      assert ids[k] in ids;
      HighFault(ids[k], s.faults[ids[k]].correlative, s.faults[ids[k]].status))
  }

  function OrderCauses(s: State, t: TenantId, e: EquipmentId, exclude: Option<nat>): seq<Blocker> {
    var ids := BlockingOrders(s.orders, t, e, exclude);
    seq(|ids|, k requires 0 <= k < |ids| =>
      assert ids[k] in ids;
      AvailabilityWorkOrder(ids[k], s.orders[ids[k]].status))
  }

  function Blockers(s: State, t: TenantId, e: EquipmentId, exclude: Option<nat>): seq<Blocker> {
    FaultCauses(s, t, e) + OrderCauses(s, t, e, exclude)
  }

  function Resolve(s: State, t: TenantId, e: EquipmentId, exclude: Option<nat>): Decision {
    var blockers := Blockers(s, t, e, exclude);
    Decision(t, e, blockers == [], blockers)
  }

  method ResolveReturnToService(db: Database, t: TenantId, e: EquipmentId, exclude: Option<nat>)
    returns (d: Decision)
    ensures d == Resolve(db.Snapshot(), t, e, exclude)
  {
    var blockers: seq<Blocker> := [];
    ghost var faultCauses := FaultCauses(db.Snapshot(), t, e);
    var blockingFaults := BlockingFaults(db.faults, db.orders, t, e);
    for k := 0 to |blockingFaults|
      invariant blockers == faultCauses[..k]
    {
      var id := blockingFaults[k];
      assert id in blockingFaults;
      blockers := blockers + [HighFault(id, db.faults[id].correlative, db.faults[id].status)];
    }
    ghost var orderCauses := OrderCauses(db.Snapshot(), t, e, exclude);
    var blockingOrders := BlockingOrders(db.orders, t, e, exclude);
    for k := 0 to |blockingOrders|
      invariant blockers == faultCauses + orderCauses[..k]
    {
      var id := blockingOrders[k];
      assert id in blockingOrders;
      blockers := blockers + [AvailabilityWorkOrder(id, db.orders[id].status)];
    }
    d := Decision(t, e, |blockers| == 0, blockers);
  }

  /** A cause that keeps the equipment out of service exists. */
  ghost predicate Blocked(s: State, t: TenantId, e: EquipmentId) {
    || (exists i :: 0 <= i < |s.faults| && BlockingFault(s.faults[i], s.orders, t, e))
    || (exists i :: 0 <= i < |s.orders| && BlockingOrder(s.orders[i], t, e))
  }

  lemma NoFaultListed(faults: seq<Fault>, orders: seq<WorkOrder>, t: TenantId, e: EquipmentId)
    ensures BlockingFaults(faults, orders, t, e) == [] <==>
            !exists i :: 0 <= i < |faults| && BlockingFault(faults[i], orders, t, e)
  {
    var ids := BlockingFaults(faults, orders, t, e);
    if ids != [] {
      assert ids[0] in ids;
      assert BlockingFault(faults[ids[0]], orders, t, e);
    }
  }

  lemma NoOrderListed(orders: seq<WorkOrder>, t: TenantId, e: EquipmentId)
    ensures BlockingOrders(orders, t, e, None) == [] <==>
            !exists i :: 0 <= i < |orders| && BlockingOrder(orders[i], t, e)
  {
    var ids := BlockingOrders(orders, t, e, None);
    if ids != [] {
      assert ids[0] in ids;
      assert BlockingOrder(orders[ids[0]], t, e);
    }
  }

  lemma CausesCounted(s: State, t: TenantId, e: EquipmentId)
    ensures Blockers(s, t, e, None) == [] <==>
            BlockingFaults(s.faults, s.orders, t, e) == [] && BlockingOrders(s.orders, t, e, None) == []
  {
    assert |Blockers(s, t, e, None)| ==
           |BlockingFaults(s.faults, s.orders, t, e)| + |BlockingOrders(s.orders, t, e, None)|;
  }

  /** The return is allowed exactly when no cause exists. */
  lemma AllowedIffNotBlocked(s: State, t: TenantId, e: EquipmentId)
    ensures Resolve(s, t, e, None).allowed <==> !Blocked(s, t, e)
  {
    CausesCounted(s, t, e);
    NoFaultListed(s.faults, s.orders, t, e);
    NoOrderListed(s.orders, t, e);
  }

  /** Excluding an order that is already closed changes nothing: a closed order never blocks. */
  lemma {:induction false} ClosedOrderNeedsNoExclusion(orders: seq<WorkOrder>, t: TenantId, e: EquipmentId, o: nat)
    requires o < |orders| ==> orders[o].status == OtClosed
    ensures BlockingOrders(orders, t, e, Some(o)) == BlockingOrders(orders, t, e, None)
  {
    if orders != [] {
      ClosedOrderNeedsNoExclusion(orders[..|orders| - 1], t, e, o);
    }
  }

  // -------------------------------------------------------- the causes, spelled out

  /** The report waits for something: OPEN, or LINKED to no order or to one that is not closed. */
  predicate Pending(f: Fault, orders: seq<WorkOrder>) {
    f.status == FaultOpen
    || (f.status == FaultLinked
        && !(f.workOrderId.Some? && (f.workOrderId.value < |orders| ==> orders[f.workOrderId.value].status == OtClosed)))
  }

  /**
   * A return is allowed exactly when no HIGH report of the equipment is pending and no order of
   * it with impact SI is unclosed.
   */
  lemma AllowedSpelled(s: State, t: TenantId, e: EquipmentId)
    ensures Resolve(s, t, e, None).allowed <==>
            && (forall f :: f in s.faults && f.tenant == t && f.equipmentId == e && f.criticality == High ==>
                  !Pending(f, s.orders))
            && (forall o :: o in s.orders && o.tenant == t && o.equipmentId == e && o.impact == Some(Si) ==>
                  o.status == OtClosed)
  {
    AllowedIffNotBlocked(s, t, e);
    if i :| 0 <= i < |s.faults| && BlockingFault(s.faults[i], s.orders, t, e) {
      assert s.faults[i] in s.faults && Pending(s.faults[i], s.orders);
    }
    if i :| 0 <= i < |s.orders| && BlockingOrder(s.orders[i], t, e) {
      assert s.orders[i] in s.orders && s.orders[i].status != OtClosed;
    }
  }

  lemma CauseLists(s: State, t: TenantId, e: EquipmentId, exclude: Option<nat>)
    ensures |FaultCauses(s, t, e)| == |BlockingFaults(s.faults, s.orders, t, e)|
    ensures |OrderCauses(s, t, e, exclude)| == |BlockingOrders(s.orders, t, e, exclude)|
  {
  }

  /** The list begins with the blocking reports, each with its own correlative and status. */
  lemma ReportsFirst(s: State, t: TenantId, e: EquipmentId, exclude: Option<nat>, k: nat)
    requires k < |BlockingFaults(s.faults, s.orders, t, e)|
    ensures var i := BlockingFaults(s.faults, s.orders, t, e)[k];
            && i < |s.faults| && k < |Blockers(s, t, e, exclude)|
            && Blockers(s, t, e, exclude)[k] == HighFault(i, s.faults[i].correlative, s.faults[i].status)
  {
    CauseLists(s, t, e, exclude);
    assert BlockingFaults(s.faults, s.orders, t, e)[k] in BlockingFaults(s.faults, s.orders, t, e);
    assert Blockers(s, t, e, exclude)[k] == FaultCauses(s, t, e)[k];
  }

  lemma OrderCauseAt(s: State, t: TenantId, e: EquipmentId, exclude: Option<nat>, k: nat)
    requires k < |BlockingOrders(s.orders, t, e, exclude)|
    ensures var o := BlockingOrders(s.orders, t, e, exclude)[k];
            && o < |s.orders| && k < |OrderCauses(s, t, e, exclude)|
            && OrderCauses(s, t, e, exclude)[k] == AvailabilityWorkOrder(o, s.orders[o].status)
  {
    assert BlockingOrders(s.orders, t, e, exclude)[k] in BlockingOrders(s.orders, t, e, exclude);
  }

  /** The blocking orders follow, each with its own status. */
  lemma OrdersNext(s: State, t: TenantId, e: EquipmentId, exclude: Option<nat>, k: nat)
    requires k < |BlockingOrders(s.orders, t, e, exclude)|
    ensures var o := BlockingOrders(s.orders, t, e, exclude)[k];
            var at := |BlockingFaults(s.faults, s.orders, t, e)| + k;
            && o < |s.orders| && at < |Blockers(s, t, e, exclude)|
            && Blockers(s, t, e, exclude)[at] == AvailabilityWorkOrder(o, s.orders[o].status)
  {
    CauseLists(s, t, e, exclude);
    OrderCauseAt(s, t, e, exclude, k);
    assert Blockers(s, t, e, exclude)[|FaultCauses(s, t, e)| + k] == OrderCauses(s, t, e, exclude)[k];
  }
}

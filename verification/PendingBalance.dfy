/**
 * The pending-balance adjustment: a quantity is spread greedily over the lines of a
 * receipt, then the receipt and its purchase order follow. Quantities are real numbers.
 */
module PendingBalance {
  import opened Common

  /** The tolerance of every quantity comparison. */
  const EPS: real := 0.000000001

  datatype ReceiptItem = ReceiptItem(receiptId: nat, orderItemId: nat, expected: real, received: real)
  datatype OrderItem = OrderItem(purchaseOrderId: nat, inventoryItem: Option<nat>, quantity: real)
  datatype ReceiptStatus = Pending | Partial | Completed
  datatype Receipt = Receipt(tenant: nat, purchaseOrderId: nat, warehouseId: nat, status: ReceiptStatus)
  datatype PoStatus = Draft | Sent | Ordered | SentToSupplier | PartiallyReceived | Received | Closed | Cancelled | OtherStatus
  datatype PurchaseOrder = PurchaseOrder(tenant: nat, status: PoStatus)

  datatype Books = Books(items: seq<ReceiptItem>, orderItems: seq<OrderItem>, receipts: seq<Receipt>,
                         orders: seq<PurchaseOrder>)

  datatype Args = Args(tenant: nat, receiptId: nat, poId: nat, itemId: nat, qty: real)

  datatype Error =
    | ReceiptNotFound | ReceiptOfAnotherOrder | ReceiptOfAnotherWarehouse | ReceiptPending | NotAnIncrease
    | NoDifference | NoLines | NotEnoughPending | OrderNotFound | Inconsistent

  function MaxR(a: real, b: real): real {
    if a >= b then a else b
  }

  function MinR(a: real, b: real): real {
    if a <= b then a else b
  }

  // ------------------------------------------------------------ the allocation

  function Room(ln: ReceiptItem): real {
    MaxR(0.0, ln.expected - ln.received)
  }

  predicate IsLine(b: Books, a: Args, ln: ReceiptItem) {
    ln.receiptId == a.receiptId && ln.orderItemId < |b.orderItems|
    && b.orderItems[ln.orderItemId].inventoryItem == Some(a.itemId)
    && b.orderItems[ln.orderItemId].purchaseOrderId == a.poId
  }

  /** findMany of the receipt's lines for this article and order, id ascending. */
  function LineIds(b: Books, a: Args, upTo: nat): (ids: seq<nat>)
    requires upTo <= |b.items|
    ensures forall i :: i in ids <==> 0 <= i < upTo && IsLine(b, a, b.items[i])
    ensures forall j, k :: 0 <= j < k < |ids| ==> ids[j] < ids[k]
  {
    if upTo == 0 then []
    else
      var rest := LineIds(b, a, upTo - 1);
      assert forall k :: 0 <= k < |rest| ==> rest[k] in rest;
      rest + if IsLine(b, a, b.items[upTo - 1]) then [upTo - 1] else []
  }

  /** Every id names a row. */
  predicate Listed(items: seq<ReceiptItem>, ids: seq<nat>) {
    forall k :: 0 <= k < |ids| ==> ids[k] < |items|
  }

  /** One pass of the loop over line `id`. */
  function Step(items: seq<ReceiptItem>, remaining: real, id: nat): (seq<ReceiptItem>, real)
    requires id < |items|
  {
    var add := MinR(remaining, Room(items[id]));
    if remaining <= EPS || add <= EPS then (items, remaining)
    else (items[id := items[id].(received := items[id].received + add)], remaining - add)
  }

  /** The loop over `ids`: the items it leaves and what it could not place. */
  function Allocate(items: seq<ReceiptItem>, ids: seq<nat>, qty: real): (r: (seq<ReceiptItem>, real))
    requires Listed(items, ids)
    ensures |r.0| == |items|
  {
    if ids == [] then (items, qty)
    else
      var r := Allocate(items, ids[..|ids| - 1], qty);
      Step(r.0, r.1, ids[|ids| - 1])
  }

  /** Once nothing worth placing is left, the rest of the lines is not looked at. */
  lemma {:induction false} AllocateStops(items: seq<ReceiptItem>, ids: seq<nat>, qty: real, k: nat)
    requires Listed(items, ids) && k <= |ids| && Allocate(items, ids[..k], qty).1 <= EPS
    ensures Allocate(items, ids, qty) == Allocate(items, ids[..k], qty)
  {
    if k < |ids| {
      assert ids[..|ids| - 1][..k] == ids[..k];
      AllocateStops(items, ids[..|ids| - 1], qty, k);
    } else {
      assert ids[..k] == ids;
    }
  }

  ghost predicate Ascending(ids: seq<nat>) {
    forall j, k :: 0 <= j < k < |ids| ==> ids[j] < ids[k]
  }

  function Total(items: seq<ReceiptItem>): real {
    if items == [] then 0.0 else Total(items[..|items| - 1]) + items[|items| - 1].received
  }

  lemma {:induction false} TotalOfUpdate(items: seq<ReceiptItem>, i: nat, ln: ReceiptItem)
    requires i < |items|
    ensures Total(items[i := ln]) == Total(items) - items[i].received + ln.received
  {
    var n := |items| - 1;
    if i == n {
      assert items[i := ln][..n] == items[..n];
    } else {
      assert items[i := ln][..n] == items[..n][i := ln];
      TotalOfUpdate(items[..n], i, ln);
    }
  }

  /** Nothing is lost: what the lines gained and what is left add up to the quantity. */
  lemma {:induction false} AllocateConserves(items: seq<ReceiptItem>, ids: seq<nat>, qty: real)
    requires Listed(items, ids)
    ensures var (items', rest) := Allocate(items, ids, qty);
            Total(items') + rest == Total(items) + qty
    ensures qty >= 0.0 ==> 0.0 <= Allocate(items, ids, qty).1 <= qty
  {
    if ids != [] {
      var id := ids[|ids| - 1];
      AllocateConserves(items, ids[..|ids| - 1], qty);
      var (items1, rest1) := Allocate(items, ids[..|ids| - 1], qty);
      var add := MinR(rest1, Room(items1[id]));
      TotalOfUpdate(items1, id, items1[id].(received := items1[id].received + add));
    }
  }

  lemma {:induction false} UnlistedUntouched(items: seq<ReceiptItem>, ids: seq<nat>, qty: real, i: nat)
    requires Listed(items, ids) && i < |items| && i !in ids
    ensures Allocate(items, ids, qty).0[i] == items[i]
  {
    if ids != [] {
      var n := |ids| - 1;
      assert ids[n] != i;
      UnlistedUntouched(items, ids[..n], qty, i);
    }
  }

  /** A line changes at most once, only upwards, and never beyond what it expects. */
  lemma {:induction false} AllocateWithinCapacity(items: seq<ReceiptItem>, ids: seq<nat>, qty: real, i: nat)
    requires Listed(items, ids) && Ascending(ids) && i < |items|
    ensures var ln := Allocate(items, ids, qty).0[i];
            && ln == items[i].(received := ln.received)
            && items[i].received <= ln.received <= MaxR(items[i].expected, items[i].received)
  {
    if ids != [] {
      var n := |ids| - 1;
      if ids[n] == i {
        assert i !in ids[..n];
        UnlistedUntouched(items, ids[..n], qty, i);
      } else {
        AllocateWithinCapacity(items, ids[..n], qty, i);
      }
    }
  }

  /** The room of the lines the loop does not skip as too small. */
  function UsableRoom(items: seq<ReceiptItem>, ids: seq<nat>): real
    requires Listed(items, ids)
  {
    if ids == [] then 0.0
    else UsableRoom(items, ids[..|ids| - 1])
         + (if Room(items[ids[|ids| - 1]]) > EPS then Room(items[ids[|ids| - 1]]) else 0.0)
  }

  function RoomTotal(items: seq<ReceiptItem>, ids: seq<nat>): real
    requires Listed(items, ids)
  {
    if ids == [] then 0.0 else RoomTotal(items, ids[..|ids| - 1]) + Room(items[ids[|ids| - 1]])
  }

  /** What is left is either within tolerance, or exactly what the usable room could not take. */
  lemma {:induction false} RemainingIsShortage(items: seq<ReceiptItem>, ids: seq<nat>, qty: real)
    requires Listed(items, ids) && Ascending(ids)
    ensures var rest := Allocate(items, ids, qty).1;
            if rest > EPS then rest == qty - UsableRoom(items, ids) else qty - UsableRoom(items, ids) <= EPS
  {
    if ids != [] {
      var n := |ids| - 1;
      RemainingIsShortage(items, ids[..n], qty);
      assert ids[n] !in ids[..n];
      UnlistedUntouched(items, ids[..n], qty, ids[n]);
    }
  }

  /** The allocation succeeds exactly when the usable room covers the quantity within tolerance. */
  lemma AllocateSucceedsIff(items: seq<ReceiptItem>, ids: seq<nat>, qty: real)
    requires Listed(items, ids) && Ascending(ids)
    ensures Allocate(items, ids, qty).1 <= EPS <==> UsableRoom(items, ids) + EPS >= qty
  {
    RemainingIsShortage(items, ids, qty);
  }

  /** First come, first served: a line is touched only when every earlier line is full within tolerance. */
  lemma {:induction false} AllocateInOrder(items: seq<ReceiptItem>, ids: seq<nat>, qty: real, j: nat, k: nat)
    requires Listed(items, ids) && Ascending(ids) && j < k < |ids|
    requires Allocate(items, ids, qty).0[ids[k]] != items[ids[k]]
    ensures Room(Allocate(items, ids, qty).0[ids[j]]) <= EPS
  {
    var n := |ids| - 1;
    var (items1, rest1) := Allocate(items, ids[..n], qty);
    if k < n {
      AllocateInOrder(items, ids[..n], qty, j, k);
      assert ids[j] != ids[n];
    } else {
      assert ids[n] !in ids[..n];
      UnlistedUntouched(items, ids[..n], qty, ids[n]);
      assert rest1 > EPS;
      LeftoverMeansFull(items, ids[..n], qty, j);
      assert ids[j] != ids[n];
    }
  }

  /** While something is left, every line already passed is full within tolerance. */
  lemma {:induction false} LeftoverMeansFull(items: seq<ReceiptItem>, ids: seq<nat>, qty: real, j: nat)
    requires Listed(items, ids) && Ascending(ids) && j < |ids|
    requires Allocate(items, ids, qty).1 > EPS
    ensures Room(Allocate(items, ids, qty).0[ids[j]]) <= EPS
  {
    var n := |ids| - 1;
    if j < n {
      LeftoverMeansFull(items, ids[..n], qty, j);
      assert ids[j] != ids[n];
    }
  }

  // --------------------------------------------------------------- the grid case

  function Units(k: int, unit: real): real {
    k as real * unit
  }

  /** x is a whole number of units. */
  ghost predicate OnGrid(x: real, unit: real) {
    exists k: int :: x == Units(k, unit)
  }

  lemma GridDifference(x: real, y: real, unit: real)
    requires OnGrid(x, unit) && OnGrid(y, unit)
    ensures OnGrid(x - y, unit)
  {
    var k: int :| x == Units(k, unit);
    var m: int :| y == Units(m, unit);
    assert x - y == Units(k - m, unit);
  }

  lemma UnitsMonotone(k: int, m: int, unit: real)
    requires k <= m && unit > 0.0
    ensures Units(k, unit) <= Units(m, unit)
  {
  }

  lemma GridGap(x: real, unit: real)
    requires OnGrid(x, unit) && unit > 0.0 && x > 0.0
    ensures x >= unit
  {
    var k: int :| x == Units(k, unit);
    if k >= 1 {
      UnitsMonotone(1, k, unit);
    } else {
      UnitsMonotone(k, 0, unit);
    }
  }

  /** The listed lines are on the grid; nothing is asked of the others. */
  ghost predicate LinesOnGrid(items: seq<ReceiptItem>, ids: seq<nat>, unit: real) {
    forall k :: 0 <= k < |ids| && ids[k] < |items| ==>
                  OnGrid(items[ids[k]].expected, unit) && OnGrid(items[ids[k]].received, unit)
  }

  lemma RoomOnGrid(ln: ReceiptItem, unit: real)
    requires OnGrid(ln.expected, unit) && OnGrid(ln.received, unit) && unit > EPS
    ensures OnGrid(Room(ln), unit) && (Room(ln) > 0.0 ==> Room(ln) > EPS)
  {
    GridDifference(ln.expected, ln.received, unit);
    if Room(ln) > 0.0 {
      GridGap(Room(ln), unit);
    } else {
      assert 0.0 == Units(0, unit);
    }
  }

  /** No line has a room too small for the loop but larger than nothing. */
  ghost predicate NoCrumbs(items: seq<ReceiptItem>, ids: seq<nat>) {
    forall k :: 0 <= k < |ids| && ids[k] < |items| ==> Room(items[ids[k]]) > EPS || Room(items[ids[k]]) == 0.0
  }

  lemma {:induction false} UsableIsTotal(items: seq<ReceiptItem>, ids: seq<nat>)
    requires Listed(items, ids) && NoCrumbs(items, ids)
    ensures UsableRoom(items, ids) == RoomTotal(items, ids)
  {
    if ids != [] {
      UsableIsTotal(items, ids[..|ids| - 1]);
    }
  }

  lemma {:induction false} RemainingOnGrid(items: seq<ReceiptItem>, ids: seq<nat>, qty: real, unit: real)
    requires Listed(items, ids) && Ascending(ids)
    requires LinesOnGrid(items, ids, unit) && OnGrid(qty, unit) && unit > EPS
    ensures OnGrid(Allocate(items, ids, qty).1, unit)
  {
    if ids != [] {
      var n := |ids| - 1;
      RemainingOnGrid(items, ids[..n], qty, unit);
      assert ids[n] !in ids[..n];
      UnlistedUntouched(items, ids[..n], qty, ids[n]);
      RoomOnGrid(items[ids[n]], unit);
      var rest := Allocate(items, ids[..n], qty).1;
      GridDifference(rest, rest, unit);
      GridDifference(rest, Room(items[ids[n]]), unit);
    }
  }

  lemma {:induction false} RoomTotalOnGrid(items: seq<ReceiptItem>, ids: seq<nat>, unit: real)
    requires Listed(items, ids) && LinesOnGrid(items, ids, unit) && unit > EPS
    ensures OnGrid(RoomTotal(items, ids), unit)
  {
    if ids == [] {
      assert 0.0 == Units(0, unit);
    } else {
      var n := |ids| - 1;
      RoomTotalOnGrid(items, ids[..n], unit);
      RoomOnGrid(items[ids[n]], unit);
      var room := Room(items[ids[n]]);
      GridDifference(room, room, unit);
      GridDifference(0.0, room, unit);
      GridDifference(RoomTotal(items, ids[..n]), 0.0 - room, unit);
    }
  }

  /** On a grid coarser than the tolerance: success iff there is room, and then nothing at all is left over. */
  lemma GridAllocationExact(items: seq<ReceiptItem>, ids: seq<nat>, qty: real, unit: real)
    requires Listed(items, ids) && Ascending(ids)
    requires LinesOnGrid(items, ids, unit) && OnGrid(qty, unit) && unit > EPS && qty >= 0.0
    ensures var (items', rest) := Allocate(items, ids, qty);
            && (rest <= EPS <==> RoomTotal(items, ids) >= qty)
            && (rest <= EPS ==> rest == 0.0 && Total(items') == Total(items) + qty)
  {
    forall k | 0 <= k < |ids| && ids[k] < |items|
      ensures Room(items[ids[k]]) > EPS || Room(items[ids[k]]) == 0.0
    {
      RoomOnGrid(items[ids[k]], unit);
    }
    UsableIsTotal(items, ids);
    RoomTotalOnGrid(items, ids, unit);
    AllocateSucceedsIff(items, ids, qty);
    AllocateConserves(items, ids, qty);
    RemainingOnGrid(items, ids, qty, unit);
    var rest := Allocate(items, ids, qty).1;
    if rest <= EPS && rest > 0.0 {
      GridGap(rest, unit);
    }
    GridDifference(qty, RoomTotal(items, ids), unit);
    if RoomTotal(items, ids) < qty {
      GridGap(qty - RoomTotal(items, ids), unit);
    }
  }

  // -------------------------------------------------- receipt and purchase order

  predicate AnyReceived(items: seq<ReceiptItem>, receiptId: nat) {
    exists i :: 0 <= i < |items| && items[i].receiptId == receiptId && items[i].received > EPS
  }

  predicate AllFilled(items: seq<ReceiptItem>, receiptId: nat) {
    forall i :: 0 <= i < |items| && items[i].receiptId == receiptId ==> items[i].received + EPS >= items[i].expected
  }

  function ReceiptStatusOf(items: seq<ReceiptItem>, receiptId: nat): ReceiptStatus {
    if !AnyReceived(items, receiptId) then Pending else if AllFilled(items, receiptId) then Completed else Partial
  }

  /** groupBy sum: everything received for an order line over all receipts of its order and tenant. */
  function SumFor(items: seq<ReceiptItem>, receipts: seq<Receipt>, tenant: nat, poId: nat, oi: nat): real {
    if items == [] then 0.0
    else
      var it := items[|items| - 1];
      SumFor(items[..|items| - 1], receipts, tenant, poId, oi)
      + (if it.orderItemId == oi && it.receiptId < |receipts| && receipts[it.receiptId].purchaseOrderId == poId
            && receipts[it.receiptId].tenant == tenant
         then it.received else 0.0)
  }

  predicate OfOrder(b: Books, poId: nat, oi: nat) {
    oi < |b.orderItems| && b.orderItems[oi].purchaseOrderId == poId
  }

  /** Every line of the order is covered, within tolerance, by what all its receipts received. */
  predicate Covered(b: Books, tenant: nat, poId: nat) {
    forall oi :: 0 <= oi < |b.orderItems| && OfOrder(b, poId, oi) ==>
                   SumFor(b.items, b.receipts, tenant, poId, oi) + EPS >= b.orderItems[oi].quantity
  }

  predicate AnyProgress(b: Books, tenant: nat, poId: nat) {
    exists oi :: 0 <= oi < |b.orderItems| && OfOrder(b, poId, oi) && SumFor(b.items, b.receipts, tenant, poId, oi) > EPS
  }

  const PROGRESS_STATUSES: set<PoStatus> := {Sent, Ordered, SentToSupplier, PartiallyReceived}

  /** The order's status after its receipts changed; None leaves it alone. */
  function NextPoStatus(b: Books, tenant: nat, poId: nat): Option<PoStatus> {
    if !(poId < |b.orders| && b.orders[poId].tenant == tenant) then None
    else if b.orders[poId].status !in PROGRESS_STATUSES then None
    else if !AnyProgress(b, tenant, poId) then None
    else if Covered(b, tenant, poId) then Some(Received) else Some(PartiallyReceived)
  }

  function WithPoStatus(b: Books, poId: nat, status: Option<PoStatus>): Books
    requires status.Some? ==> poId < |b.orders|
  {
    if status.None? then b else b.(orders := b.orders[poId := b.orders[poId].(status := status.value)])
  }

  /** The lines and the receipt after the allocation. */
  function WithReceipt(b: Books, a: Args, items: seq<ReceiptItem>): Books
    requires a.receiptId < |b.receipts|
  {
    b.(items := items,
       receipts := b.receipts[a.receiptId := b.receipts[a.receiptId].(status := ReceiptStatusOf(items, a.receiptId))])
  }

  /** The whole synchronisation; None is the inconsistency exception. */
  function Synced(b: Books, a: Args): Option<Books>
    requires a.receiptId < |b.receipts|
  {
    var ids := LineIds(b, a, |b.items|);
    assert forall k :: 0 <= k < |ids| ==> ids[k] in ids;
    var (items, rest) := Allocate(b.items, ids, a.qty);
    if rest > EPS then None
    else
      var b1 := WithReceipt(b, a, items);
      Some(WithPoStatus(b1, a.poId, NextPoStatus(b1, a.tenant, a.poId)))
  }

  class PurchaseDb {
    var items: seq<ReceiptItem>
    var orderItems: seq<OrderItem>
    var receipts: seq<Receipt>
    var orders: seq<PurchaseOrder>

    function Snapshot(): Books
      reads this
    {
      Books(items, orderItems, receipts, orders)
    }

    /** The first loop: each line takes what fits, until nothing is left. */
    method FillLines(ids: seq<nat>, qty: real) returns (remaining: real)
      requires Listed(items, ids)
      modifies this`items
      ensures (items, remaining) == Allocate(old(items), ids, qty)
    {
      remaining := qty;
      for k := 0 to |ids|
        invariant |items| == |old(items)|
        invariant (items, remaining) == Allocate(old(items), ids[..k], qty)
      {
        assert ids[..k + 1][..k] == ids[..k];
        if remaining <= EPS {
          AllocateStops(old(items), ids, qty, k);
          return;
        }
        var ln := items[ids[k]];
        var room := MaxR(0.0, ln.expected - ln.received);
        var add := MinR(remaining, room);
        if add <= EPS {
          continue;
        }
        items := items[ids[k] := ln.(received := ln.received + add)];
        remaining := remaining - add;
      }
      assert ids[..|ids|] == ids;
    }

    /** The second loop: the two flags that decide the receipt's status. */
    method ReceiptProgress(receiptId: nat) returns (status: ReceiptStatus)
      ensures status == ReceiptStatusOf(items, receiptId)
    {
      var allDocComplete, anyReceived := true, false;
      for i := 0 to |items|
        invariant anyReceived == AnyReceived(items[..i], receiptId)
        invariant allDocComplete == AllFilled(items[..i], receiptId)
      {
        assert items[..i + 1] == items[..i] + [items[i]];
        if items[i].receiptId == receiptId {
          if items[i].received > EPS {
            anyReceived := true;
            assert items[..i + 1][i].received > EPS;
          }
          if items[i].received + EPS < items[i].expected {
            allDocComplete := false;
            assert items[..i + 1][i].received + EPS < items[i].expected;
          }
        }
        assert anyReceived == AnyReceived(items[..i + 1], receiptId) by {
          assert forall q :: 0 <= q < i ==> items[..i + 1][q] == items[..i][q];
        }
      }
      assert items[..|items|] == items;
      status := if !anyReceived then Pending else if allDocComplete then Completed else Partial;
    }

    /** The third loop: the order's progress over all its receipts. */
    method OrderProgress(tenant: nat, poId: nat) returns (status: Option<PoStatus>)
      ensures status == NextPoStatus(Snapshot(), tenant, poId)
    {
      if !(poId < |orders| && orders[poId].tenant == tenant) || orders[poId].status !in PROGRESS_STATUSES {
        return None;
      }
      var allLinesFull, anyProgress := true, false;
      for oi := 0 to |orderItems|
        invariant anyProgress == exists x :: 0 <= x < oi && OfOrder(Snapshot(), poId, x)
                                             && SumFor(items, receipts, tenant, poId, x) > EPS
        invariant allLinesFull == forall x :: 0 <= x < oi && OfOrder(Snapshot(), poId, x) ==>
                                                SumFor(items, receipts, tenant, poId, x) + EPS >= orderItems[x].quantity
      {
        if orderItems[oi].purchaseOrderId == poId {
          var rec := SumFor(items, receipts, tenant, poId, oi);
          if rec + EPS < orderItems[oi].quantity {
            allLinesFull := false;
          }
          if rec > EPS {
            anyProgress := true;
          }
        }
      }
      if !anyProgress {
        return None;
      }
      status := Some(if allLinesFull then Received else PartiallyReceived);
    }

    method SyncPendingBalance(a: Args) returns (error: Option<Error>)
      requires a.receiptId < |receipts|
      modifies this
      ensures match Synced(old(Snapshot()), a)
              case None => error == Some(Inconsistent) && Snapshot() == old(Snapshot())
              case Some(b) => error == None && Snapshot() == b
    {
      var before := items;
      var ids := LineIds(Snapshot(), a, |items|);
      assert forall k :: 0 <= k < |ids| ==> ids[k] in ids;
      var remaining := FillLines(ids, a.qty);
      if remaining > EPS {
        items := before;
        return Some(Inconsistent);
      }
      var receiptStatus := ReceiptProgress(a.receiptId);
      receipts := receipts[a.receiptId := receipts[a.receiptId].(status := receiptStatus)];
      var poStatus := OrderProgress(a.tenant, a.poId);
      if poStatus.Some? {
        orders := orders[a.poId := orders[a.poId].(status := poStatus.value)];
      }
      error := None;
    }
  }

  // ------------------------------------------------------------ the create guard

  /** The checks `create` makes for a pending balance before it opens the transaction. */
  function GuardError(b: Books, a: Args, warehouseId: nat): Option<Error> {
    if -EPS < a.qty < EPS then Some(NoDifference)
    else if !(a.receiptId < |b.receipts| && b.receipts[a.receiptId].tenant == a.tenant) then Some(ReceiptNotFound)
    else if b.receipts[a.receiptId].purchaseOrderId != a.poId then Some(ReceiptOfAnotherOrder)
    else if b.receipts[a.receiptId].warehouseId != warehouseId then Some(ReceiptOfAnotherWarehouse)
    else if b.receipts[a.receiptId].status == Pending then Some(ReceiptPending)
    else if a.qty <= 0.0 then Some(NotAnIncrease)
    else
      var ids := LineIds(b, a, |b.items|);
      assert forall k :: 0 <= k < |ids| ==> ids[k] in ids;
      if ids == [] then Some(NoLines)
      else if RoomTotal(b.items, ids) + EPS < a.qty then Some(NotEnoughPending)
      else if !(a.poId < |b.orders| && b.orders[a.poId].tenant == a.tenant) then Some(OrderNotFound)
      else None
  }

  /** `create` with reason SALDO_PENDIENTE: the guard, then the synchronisation in its transaction. */
  function Create(b: Books, a: Args, warehouseId: nat): (Books, Option<Error>) {
    var guard := GuardError(b, a, warehouseId);
    if guard.Some? then (b, guard)
    else
      match Synced(b, a)
      case None => (b, Some(Inconsistent))
      case Some(b') => (b', None)
  }

  method CreateAdjustment(db: PurchaseDb, a: Args, warehouseId: nat) returns (error: Option<Error>)
    modifies db
    ensures (db.Snapshot(), error) == Create(old(db.Snapshot()), a, warehouseId)
  {
    error := GuardError(db.Snapshot(), a, warehouseId);
    if error.None? {
      error := db.SyncPendingBalance(a);
    }
  }

  lemma LineIdsListed(b: Books, a: Args)
    ensures Listed(b.items, LineIds(b, a, |b.items|)) && Ascending(LineIds(b, a, |b.items|))
  {
    var ids := LineIds(b, a, |b.items|);
    assert forall k :: 0 <= k < |ids| ==> ids[k] in ids;
  }

  /** Past the guard the inconsistency is raised exactly when the usable room falls short of the quantity. */
  lemma InconsistentIff(b: Books, a: Args, warehouseId: nat)
    requires GuardError(b, a, warehouseId) == None
    ensures Listed(b.items, LineIds(b, a, |b.items|))
    ensures Create(b, a, warehouseId).1 == Some(Inconsistent) <==>
            UsableRoom(b.items, LineIds(b, a, |b.items|)) + EPS < a.qty
  {
    LineIdsListed(b, a);
    AllocateSucceedsIff(b.items, LineIds(b, a, |b.items|), a.qty);
  }

  lemma GuardMeansRoom(b: Books, a: Args, warehouseId: nat)
    requires GuardError(b, a, warehouseId) == None
    ensures Listed(b.items, LineIds(b, a, |b.items|))
    ensures RoomTotal(b.items, LineIds(b, a, |b.items|)) + EPS >= a.qty
  {
    LineIdsListed(b, a);
  }

  lemma CreateOutcomes(b: Books, a: Args, warehouseId: nat)
    requires GuardError(b, a, warehouseId) == None
    ensures Create(b, a, warehouseId).1 in {None, Some(Inconsistent)}
  {
  }

  /** When no line has room of at most the tolerance, the guard alone keeps the inconsistency away. */
  lemma GuardSufficesWithoutCrumbs(b: Books, a: Args, warehouseId: nat)
    requires GuardError(b, a, warehouseId) == None
    requires NoCrumbs(b.items, LineIds(b, a, |b.items|))
    ensures Create(b, a, warehouseId).1 == None
  {
    GuardMeansRoom(b, a, warehouseId);
    UsableIsTotal(b.items, LineIds(b, a, |b.items|));
    InconsistentIff(b, a, warehouseId);
    CreateOutcomes(b, a, warehouseId);
  }

  /** A receipt with room 1 on one line and a crumb on the next, asked for a little more than both. */
  function CrumbBooks(): Books {
    Books([ReceiptItem(0, 0, 1.0, 0.0), ReceiptItem(0, 0, EPS, 0.0)],
          [OrderItem(0, Some(7), 2.0)], [Receipt(1, 0, 0, Partial)], [PurchaseOrder(1, Sent)])
  }

  function CrumbArgs(): Args {
    Args(1, 0, 0, 7, 1.0 + EPS + EPS)
  }

  lemma CrumbLines()
    ensures LineIds(CrumbBooks(), CrumbArgs(), 2) == [0, 1]
  {
    var b, a := CrumbBooks(), CrumbArgs();
    assert LineIds(b, a, 0) == [];
    assert LineIds(b, a, 1) == [0];
  }

  lemma CrumbRooms()
    ensures RoomTotal(CrumbBooks().items, [0, 1]) == 1.0 + EPS && UsableRoom(CrumbBooks().items, [0, 1]) == 1.0
  {
    var items := CrumbBooks().items;
    assert Room(items[0]) == 1.0 && Room(items[1]) == EPS;
    assert [0, 1][..1] == [0] && [0][..0] == [];
    assert RoomTotal(items, []) == 0.0 && UsableRoom(items, []) == 0.0;
    assert RoomTotal(items, [0]) == 1.0 && UsableRoom(items, [0]) == 1.0;
  }

  /** The guard admits what the allocation cannot place: it counts room that the loop skips. */
  lemma GuardCountsCrumbs()
    ensures exists b: Books, a: Args ::
              GuardError(b, a, 0) == None && Create(b, a, 0).1 == Some(Inconsistent)
  {
    var b, a := CrumbBooks(), CrumbArgs();
    CrumbLines();
    CrumbRooms();
    assert |b.items| == 2;
    assert GuardError(b, a, 0) == None;
    InconsistentIff(b, a, 0);
    assert Create(b, a, 0).1 == Some(Inconsistent);
  }

  /** On a grid coarser than the tolerance: what passes the guard is placed to the last unit. */
  lemma CreateOnGridIsExact(b: Books, a: Args, warehouseId: nat, unit: real)
    requires GuardError(b, a, warehouseId) == None
    requires LinesOnGrid(b.items, LineIds(b, a, |b.items|), unit) && OnGrid(a.qty, unit) && unit > EPS
    ensures var (b', error) := Create(b, a, warehouseId);
            error == None && Total(b'.items) == Total(b.items) + a.qty
  {
    var ids := LineIds(b, a, |b.items|);
    LineIdsListed(b, a);
    forall k | 0 <= k < |ids| && ids[k] < |b.items|
      ensures Room(b.items[ids[k]]) > EPS || Room(b.items[ids[k]]) == 0.0
    {
      RoomOnGrid(b.items[ids[k]], unit);
    }
    GuardSufficesWithoutCrumbs(b, a, warehouseId);
    GridAllocationExact(b.items, ids, a.qty, unit);
  }

  // ------------------------------------------------------------- in plain numbers

  /** The row is a line of the receipt for the article and the order. */
  predicate LineOfArticle(b: Books, a: Args, ln: ReceiptItem) {
    && ln.receiptId == a.receiptId && ln.orderItemId < |b.orderItems|
    && b.orderItems[ln.orderItemId].inventoryItem == Some(a.itemId)
    && b.orderItems[ln.orderItemId].purchaseOrderId == a.poId
  }

  /** The lines the loop visits are exactly those, in id order. */
  lemma LinesSpelled(b: Books, a: Args)
    ensures forall i :: i in LineIds(b, a, |b.items|) <==> 0 <= i < |b.items| && LineOfArticle(b, a, b.items[i])
    ensures Ascending(LineIds(b, a, |b.items|))
  {
    LineIdsListed(b, a);
  }

  /** A row for the order line on a receipt of the order and tenant. */
  predicate CountsFor(it: ReceiptItem, receipts: seq<Receipt>, tenant: nat, poId: nat, oi: nat) {
    it.orderItemId == oi && it.receiptId < |receipts|
    && receipts[it.receiptId].purchaseOrderId == poId && receipts[it.receiptId].tenant == tenant
  }

  /** What all receipts of the order and tenant have received for one order line. */
  function ReceivedFor(b: Books, tenant: nat, poId: nat, oi: nat): real {
    Total(Filter(b.items, (it: ReceiptItem) => CountsFor(it, b.receipts, tenant, poId, oi)))
  }

  lemma TotalAppend(items: seq<ReceiptItem>, more: seq<ReceiptItem>)
    requires |more| <= 1
    ensures Total(items + more) == Total(items) + Total(more)
  {
    if more == [] {
      assert items + more == items;
    } else {
      assert (items + more)[..|items|] == items && more[..0] == [];
    }
  }

  lemma {:induction false} SumIsReceivedFor(items: seq<ReceiptItem>, receipts: seq<Receipt>, tenant: nat, poId: nat, oi: nat,
                                            p: ReceiptItem -> bool)
    requires forall it :: p(it) <==> CountsFor(it, receipts, tenant, poId, oi)
    ensures SumFor(items, receipts, tenant, poId, oi) == Total(Filter(items, p))
  {
    if items != [] {
      var front, last := items[..|items| - 1], items[|items| - 1];
      SumIsReceivedFor(front, receipts, tenant, poId, oi, p);
      assert items == front + [last];
      FilterAppend(front, [last], p);
      OneMoreReceived(Filter(front, p), last, p);
      assert p(last) <==> CountsFor(last, receipts, tenant, poId, oi);
    }
  }

  lemma OneMoreReceived(items: seq<ReceiptItem>, last: ReceiptItem, p: ReceiptItem -> bool)
    ensures Total(items + Filter([last], p)) == Total(items) + (if p(last) then last.received else 0.0)
  {
    assert Filter([last], p) == (if p(last) then [last] else []) + Filter([last][1..], p);
    assert Filter([last], p) == if p(last) then [last] else [];
    TotalAppend(items, Filter([last], p));
    assert [last][..0] == [];
  }

  /** Every line of the order is covered, up to 1e-9, by what all receipts of the order have received for it. */
  ghost predicate FullyReceived(b: Books, tenant: nat, poId: nat) {
    forall oi :: 0 <= oi < |b.orderItems| && b.orderItems[oi].purchaseOrderId == poId ==>
      ReceivedFor(b, tenant, poId, oi) + 0.000000001 >= b.orderItems[oi].quantity
  }

  lemma SumSpelled(b: Books, tenant: nat, poId: nat, oi: nat)
    ensures SumFor(b.items, b.receipts, tenant, poId, oi) == ReceivedFor(b, tenant, poId, oi)
  {
    SumIsReceivedFor(b.items, b.receipts, tenant, poId, oi,
                     (it: ReceiptItem) => CountsFor(it, b.receipts, tenant, poId, oi));
  }

  lemma CoveredSpelled(b: Books, tenant: nat, poId: nat)
    ensures Covered(b, tenant, poId) <==> FullyReceived(b, tenant, poId)
  {
    forall oi | 0 <= oi < |b.orderItems|
      ensures SumFor(b.items, b.receipts, tenant, poId, oi) == ReceivedFor(b, tenant, poId, oi)
    {
      SumSpelled(b, tenant, poId, oi);
    }
    if Covered(b, tenant, poId) {
      forall oi | 0 <= oi < |b.orderItems| && b.orderItems[oi].purchaseOrderId == poId
        ensures ReceivedFor(b, tenant, poId, oi) + 0.000000001 >= b.orderItems[oi].quantity
      {
        assert OfOrder(b, poId, oi);
      }
    }
  }

  lemma SomeLineListed(b: Books, a: Args, i: nat)
    requires i < |b.items| && LineOfArticle(b, a, b.items[i])
    ensures LineIds(b, a, |b.items|) != []
  {
    assert i in LineIds(b, a, |b.items|);
  }

  lemma FirstListed(b: Books, a: Args) returns (ln: ReceiptItem)
    requires LineIds(b, a, |b.items|) != []
    ensures ln in b.items && LineOfArticle(b, a, ln)
  {
    var i := LineIds(b, a, |b.items|)[0];
    assert i in LineIds(b, a, |b.items|);
    ln := b.items[i];
  }

  lemma LinesExist(b: Books, a: Args)
    ensures LineIds(b, a, |b.items|) == [] <==> !exists ln :: ln in b.items && LineOfArticle(b, a, ln)
  {
    if LineIds(b, a, |b.items|) != [] {
      var ln := FirstListed(b, a);
    }
    if ln :| ln in b.items && LineOfArticle(b, a, ln) {
      var i :| 0 <= i < |b.items| && b.items[i] == ln;
      SomeLineListed(b, a, i);
    }
  }

  /** Everything an adjustment must meet besides enough room. */
  ghost predicate Admissible(b: Books, a: Args, warehouseId: nat) {
    && a.qty >= 0.000000001
    && a.receiptId < |b.receipts| && b.receipts[a.receiptId].tenant == a.tenant
    && b.receipts[a.receiptId].purchaseOrderId == a.poId && b.receipts[a.receiptId].warehouseId == warehouseId
    && b.receipts[a.receiptId].status in {Partial, Completed}
    && (exists ln :: ln in b.items && LineOfArticle(b, a, ln))
    && a.poId < |b.orders| && b.orders[a.poId].tenant == a.tenant
  }

  /** What the guard asks of the receipt and the order, once a line of the article is known to exist. */
  predicate AdmissibleIds(b: Books, a: Args, warehouseId: nat) {
    && a.qty >= 0.000000001
    && a.receiptId < |b.receipts|
    && b.receipts[a.receiptId].tenant == a.tenant
    && b.receipts[a.receiptId].purchaseOrderId == a.poId
    && b.receipts[a.receiptId].warehouseId == warehouseId
    && b.receipts[a.receiptId].status != Pending
    && LineIds(b, a, |b.items|) != []
    && a.poId < |b.orders|
    && b.orders[a.poId].tenant == a.tenant
  }

  lemma GuardOfIds(b: Books, a: Args, warehouseId: nat)
    ensures Listed(b.items, LineIds(b, a, |b.items|))
    ensures GuardError(b, a, warehouseId) == None <==>
            AdmissibleIds(b, a, warehouseId)
            && RoomTotal(b.items, LineIds(b, a, |b.items|)) + EPS >= a.qty
  {
    LineIdsListed(b, a);
  }

  /** An adjustment passes the guard exactly under these conditions. */
  lemma GuardPassesIff(b: Books, a: Args, warehouseId: nat)
    ensures Listed(b.items, LineIds(b, a, |b.items|))
    ensures GuardError(b, a, warehouseId) == None <==>
            Admissible(b, a, warehouseId)
            && RoomTotal(b.items, LineIds(b, a, |b.items|)) + 0.000000001 >= a.qty
  {
    GuardOfIds(b, a, warehouseId);
    assert Admissible(b, a, warehouseId) <==> AdmissibleIds(b, a, warehouseId) by {
      LinesExist(b, a);
    }
  }

  // ------------------------------------------------------------ what a sync means

  /** A successful sync: totals within tolerance, no line over capacity, only lines of this article touched. */
  lemma SyncConserves(b: Books, a: Args, i: nat)
    requires a.receiptId < |b.receipts| && Synced(b, a).Some? && a.qty >= 0.0 && i < |b.items|
    ensures var b' := Synced(b, a).value;
            && |b'.items| == |b.items| && b'.orderItems == b.orderItems
            && a.qty - 0.000000001 <= Total(b'.items) - Total(b.items) <= a.qty
            && b'.items[i] == b.items[i].(received := b'.items[i].received)
            && b.items[i].received <= b'.items[i].received <= MaxR(b.items[i].expected, b.items[i].received)
            && (!LineOfArticle(b, a, b.items[i]) ==> b'.items[i] == b.items[i])
  {
    var ids := LineIds(b, a, |b.items|);
    LineIdsListed(b, a);
    AllocateConserves(b.items, ids, a.qty);
    AllocateWithinCapacity(b.items, ids, a.qty, i);
    if !IsLine(b, a, b.items[i]) {
      UnlistedUntouched(b.items, ids, a.qty, i);
    }
  }

  lemma {:induction false} SomeLineGrew(items: seq<ReceiptItem>, ids: seq<nat>, qty: real) returns (k: nat)
    requires Listed(items, ids) && Ascending(ids) && qty > EPS && Allocate(items, ids, qty).1 <= EPS
    ensures k < |ids| && Allocate(items, ids, qty).0[ids[k]].received > items[ids[k]].received + EPS
  {
    var n := |ids| - 1;
    var (items1, rest1) := Allocate(items, ids[..n], qty);
    if rest1 <= EPS {
      k := SomeLineGrew(items, ids[..n], qty);
      assert ids[k] != ids[n];
    } else {
      k := n;
      assert ids[n] !in ids[..n];
      UnlistedUntouched(items, ids[..n], qty, ids[n]);
    }
  }

  lemma FilledSpelled(items: seq<ReceiptItem>, receiptId: nat)
    ensures AllFilled(items, receiptId) <==>
            forall ln :: ln in items && ln.receiptId == receiptId ==> ln.received + 0.000000001 >= ln.expected
  {
    if AllFilled(items, receiptId) {
      forall ln | ln in items && ln.receiptId == receiptId
        ensures ln.received + 0.000000001 >= ln.expected
      {
        var i :| 0 <= i < |items| && items[i] == ln;
      }
    }
  }

  /** After a successful sync of more than the tolerance the receipt is COMPLETED iff every line is filled. */
  lemma ReceiptCompletedIffFilled(b: Books, a: Args)
    requires a.receiptId < |b.receipts| && Synced(b, a).Some? && a.qty > EPS
    requires forall i :: 0 <= i < |b.items| ==> b.items[i].received >= 0.0
    ensures var b' := Synced(b, a).value;
            && |b'.receipts| == |b.receipts|
            && b'.receipts[a.receiptId].status ==
               (if forall ln :: ln in b'.items && ln.receiptId == a.receiptId ==>
                       ln.received + 0.000000001 >= ln.expected
                then Completed else Partial)
            && (forall r :: 0 <= r < |b.receipts| && r != a.receiptId ==> b'.receipts[r] == b.receipts[r])
  {
    var ids := LineIds(b, a, |b.items|);
    LineIdsListed(b, a);
    var k := SomeLineGrew(b.items, ids, a.qty);
    assert ids[k] in ids;
    AllocateWithinCapacity(b.items, ids, a.qty, ids[k]);
    assert AnyReceived(Synced(b, a).value.items, a.receiptId);
    FilledSpelled(Synced(b, a).value.items, a.receiptId);
  }

  lemma {:induction false} SumForAtLeast(items: seq<ReceiptItem>, receipts: seq<Receipt>, tenant: nat, poId: nat, i: nat)
    requires i < |items| && items[i].receiptId < |receipts|
    requires receipts[items[i].receiptId].purchaseOrderId == poId && receipts[items[i].receiptId].tenant == tenant
    requires forall j :: 0 <= j < |items| ==> items[j].received >= 0.0
    ensures SumFor(items, receipts, tenant, poId, items[i].orderItemId) >= items[i].received
  {
    var n := |items| - 1;
    SumForNonNegative(items[..n], receipts, tenant, poId, items[i].orderItemId);
    if i < n {
      SumForAtLeast(items[..n], receipts, tenant, poId, i);
    }
  }

  lemma {:induction false} SumForNonNegative(items: seq<ReceiptItem>, receipts: seq<Receipt>, tenant: nat, poId: nat,
                                             oi: nat)
    requires forall j :: 0 <= j < |items| ==> items[j].received >= 0.0
    ensures SumFor(items, receipts, tenant, poId, oi) >= 0.0
  {
    if items != [] {
      SumForNonNegative(items[..|items| - 1], receipts, tenant, poId, oi);
    }
  }

  /** The sync made progress on the order: some line of it now has more than the tolerance. */
  lemma SyncMakesProgress(b: Books, a: Args)
    requires a.receiptId < |b.receipts| && Synced(b, a).Some? && a.qty > EPS
    requires b.receipts[a.receiptId].purchaseOrderId == a.poId && b.receipts[a.receiptId].tenant == a.tenant
    requires forall i :: 0 <= i < |b.items| ==> b.items[i].received >= 0.0
    ensures Listed(b.items, LineIds(b, a, |b.items|))
    ensures AnyProgress(WithReceipt(b, a, Allocate(b.items, LineIds(b, a, |b.items|), a.qty).0), a.tenant, a.poId)
  {
    var ids := LineIds(b, a, |b.items|);
    LineIdsListed(b, a);
    var items := Allocate(b.items, ids, a.qty).0;
    var b1 := WithReceipt(b, a, items);
    var k := SomeLineGrew(b.items, ids, a.qty);
    assert ids[k] in ids;
    forall j | 0 <= j < |items|
      ensures items[j] == b.items[j].(received := items[j].received) && items[j].received >= 0.0
    {
      AllocateWithinCapacity(b.items, ids, a.qty, j);
    }
    SumForAtLeast(items, b1.receipts, a.tenant, a.poId, ids[k]);
    assert OfOrder(b1, a.poId, items[ids[k]].orderItemId);
  }

  /** An order the sync is not about, or in any other status than the four in progress, keeps its row. */
  lemma OtherOrdersStay(b: Books, a: Args, p: nat)
    requires a.receiptId < |b.receipts| && Synced(b, a).Some? && p < |b.orders|
    requires p != a.poId || b.orders[p].tenant != a.tenant
             || b.orders[p].status !in {Sent, Ordered, SentToSupplier, PartiallyReceived}
    ensures |Synced(b, a).value.orders| == |b.orders| && Synced(b, a).value.orders[p] == b.orders[p]
  {
  }

  /**
   * After a sync of more than the tolerance its order, if it was sent, ordered, sent to the
   * supplier or partially received, is RECEIVED exactly when every line of it is covered, and
   * PARTIALLY_RECEIVED otherwise.
   */
  lemma OrderStatusExact(b: Books, a: Args)
    requires a.receiptId < |b.receipts| && Synced(b, a).Some? && a.qty > 0.000000001
    requires b.receipts[a.receiptId].purchaseOrderId == a.poId && b.receipts[a.receiptId].tenant == a.tenant
    requires a.poId < |b.orders| && b.orders[a.poId].tenant == a.tenant
    requires b.orders[a.poId].status in {Sent, Ordered, SentToSupplier, PartiallyReceived}
    requires forall i :: 0 <= i < |b.items| ==> b.items[i].received >= 0.0
    ensures var b' := Synced(b, a).value;
            && |b'.orders| == |b.orders|
            && b'.orders[a.poId].status == if FullyReceived(b', a.tenant, a.poId) then Received else PartiallyReceived
  {
    SyncMakesProgress(b, a);
    var b1 := WithReceipt(b, a, Allocate(b.items, LineIds(b, a, |b.items|), a.qty).0);
    var b' := Synced(b, a).value;
    assert Covered(b', a.tenant, a.poId) == Covered(b1, a.tenant, a.poId);
    CoveredSpelled(b', a.tenant, a.poId);
  }

  /** The order is set to RECEIVED only if every line of it is covered over all its receipts. */
  lemma ReceivedOnlyIfCovered(b: Books, a: Args)
    requires a.receiptId < |b.receipts| && Synced(b, a).Some?
    requires a.poId < |b.orders| && b.orders[a.poId].status != Received
    ensures var b' := Synced(b, a).value;
            && |b'.orders| == |b.orders|
            && (b'.orders[a.poId].status == Received ==>
                  && FullyReceived(b', a.tenant, a.poId)
                  && b.orders[a.poId].status in {Sent, Ordered, SentToSupplier, PartiallyReceived})
  {
    var b' := Synced(b, a).value;
    if b.orders[a.poId].status !in {Sent, Ordered, SentToSupplier, PartiallyReceived} {
      OtherOrdersStay(b, a, a.poId);
    }
    CoveredSpelled(b', a.tenant, a.poId);
    ReceivedMeansCovered(b, a);
  }

  lemma ReceivedMeansCovered(b: Books, a: Args)
    requires a.receiptId < |b.receipts| && Synced(b, a).Some?
    requires a.poId < |b.orders| && b.orders[a.poId].status != Received
    ensures |Synced(b, a).value.orders| == |b.orders|
    ensures Synced(b, a).value.orders[a.poId].status == Received ==> Covered(Synced(b, a).value, a.tenant, a.poId)
  {
  }

  // --------------------------------------------------------------------- runs

  /** A sequence of synchronisations; a failing one leaves the books alone. */
  function RunSyncs(b: Books, calls: seq<Args>): Books {
    if calls == [] then b
    else
      var b1 := RunSyncs(b, calls[..|calls| - 1]);
      var a := calls[|calls| - 1];
      if a.receiptId < |b1.receipts| && Synced(b1, a).Some? then Synced(b1, a).value else b1
  }

  predicate Terminal(status: PoStatus) {
    status in {Received, Closed, Cancelled}
  }

  lemma SyncKeepsTerminal(b: Books, a: Args, poId: nat)
    requires a.receiptId < |b.receipts| && Synced(b, a).Some?
    requires poId < |b.orders| && Terminal(b.orders[poId].status)
    ensures |Synced(b, a).value.orders| == |b.orders| && Synced(b, a).value.orders[poId] == b.orders[poId]
  {
  }

  /** A RECEIVED, CLOSED or CANCELLED order never changes, over any run of syncs. */
  lemma {:induction false} TerminalOrdersNeverChange(b: Books, calls: seq<Args>, poId: nat)
    requires poId < |b.orders| && Terminal(b.orders[poId].status)
    ensures |RunSyncs(b, calls).orders| == |b.orders| && RunSyncs(b, calls).orders[poId] == b.orders[poId]
  {
    if calls != [] {
      var b1 := RunSyncs(b, calls[..|calls| - 1]);
      var a := calls[|calls| - 1];
      TerminalOrdersNeverChange(b, calls[..|calls| - 1], poId);
      if a.receiptId < |b1.receipts| && Synced(b1, a).Some? {
        SyncKeepsTerminal(b1, a, poId);
      }
    }
  }

  /** What a sync may do to items and receipts: received quantities grow, everything else stays. */
  ghost predicate OnlyMoreReceived(b: Books, b': Books) {
    && |b'.items| == |b.items| && |b'.receipts| == |b.receipts| && b'.orderItems == b.orderItems
    && (forall i :: 0 <= i < |b.items| ==>
          b'.items[i] == b.items[i].(received := b'.items[i].received) && b'.items[i].received >= b.items[i].received)
    && (forall r :: 0 <= r < |b.receipts| ==> b'.receipts[r] == b.receipts[r].(status := b'.receipts[r].status))
  }

  lemma SyncOnlyAddsReceived(b: Books, a: Args)
    requires a.receiptId < |b.receipts| && Synced(b, a).Some?
    ensures OnlyMoreReceived(b, Synced(b, a).value)
  {
    LineIdsListed(b, a);
    forall i | 0 <= i < |b.items|
      ensures var ln := Synced(b, a).value.items[i];
              ln == b.items[i].(received := ln.received) && ln.received >= b.items[i].received
    {
      AllocateWithinCapacity(b.items, LineIds(b, a, |b.items|), a.qty, i);
    }
  }

  lemma {:induction false} SumGrows(items: seq<ReceiptItem>, items': seq<ReceiptItem>, receipts: seq<Receipt>,
                                    receipts': seq<Receipt>, tenant: nat, poId: nat, oi: nat)
    requires |items'| == |items| && |receipts'| == |receipts|
    requires forall i :: 0 <= i < |items| ==>
               items'[i] == items[i].(received := items'[i].received) && items'[i].received >= items[i].received
    requires forall r :: 0 <= r < |receipts| ==> receipts'[r] == receipts[r].(status := receipts'[r].status)
    ensures SumFor(items', receipts', tenant, poId, oi) >= SumFor(items, receipts, tenant, poId, oi)
  {
    if items != [] {
      var n := |items| - 1;
      SumGrows(items[..n], items'[..n], receipts, receipts', tenant, poId, oi);
    }
  }

  lemma CoverageKept(b: Books, b': Books, tenant: nat, poId: nat)
    requires OnlyMoreReceived(b, b') && Covered(b, tenant, poId)
    ensures Covered(b', tenant, poId)
  {
    forall oi | 0 <= oi < |b'.orderItems| && OfOrder(b', poId, oi)
      ensures SumFor(b'.items, b'.receipts, tenant, poId, oi) + EPS >= b'.orderItems[oi].quantity
    {
      assert OfOrder(b, poId, oi);
      SumGrows(b.items, b'.items, b.receipts, b'.receipts, tenant, poId, oi);
    }
  }

  /** RECEIVED is always true of the books. */
  ghost predicate ReceivedIsTrue(b: Books) {
    forall p :: 0 <= p < |b.orders| && b.orders[p].status == Received ==> FullyReceived(b, b.orders[p].tenant, p)
  }

  lemma StillReceived(b: Books, b': Books, tenant: nat, poId: nat)
    requires OnlyMoreReceived(b, b') && FullyReceived(b, tenant, poId)
    ensures FullyReceived(b', tenant, poId)
  {
    CoveredSpelled(b, tenant, poId);
    CoverageKept(b, b', tenant, poId);
    CoveredSpelled(b', tenant, poId);
  }

  lemma SyncKeepsReceivedTrue(b: Books, a: Args)
    requires a.receiptId < |b.receipts| && Synced(b, a).Some? && ReceivedIsTrue(b)
    ensures ReceivedIsTrue(Synced(b, a).value)
  {
    var b' := Synced(b, a).value;
    SyncOnlyAddsReceived(b, a);
    forall p | 0 <= p < |b'.orders| && b'.orders[p].status == Received
      ensures FullyReceived(b', b'.orders[p].tenant, p)
    {
      var tenant := b.orders[p].tenant;
      if b.orders[p].status == Received {
        StillReceived(b, b', tenant, p);
      } else {
        NewlyReceived(b, a, p);
      }
    }
  }

  /** An order that a sync sets to RECEIVED is the one it is about, and it is covered. */
  lemma NewlyReceived(b: Books, a: Args, p: nat)
    requires a.receiptId < |b.receipts| && Synced(b, a).Some? && p < |b.orders| && b.orders[p].status != Received
    requires |Synced(b, a).value.orders| == |b.orders| && Synced(b, a).value.orders[p].status == Received
    ensures Synced(b, a).value.orders[p].tenant == b.orders[p].tenant
    ensures FullyReceived(Synced(b, a).value, b.orders[p].tenant, p)
  {
    if p != a.poId || b.orders[p].tenant != a.tenant {
      OtherOrdersStay(b, a, p);
    }
    ReceivedOnlyIfCovered(b, a);
  }

  /** Over any run of syncs no order says RECEIVED while a line of it is short. */
  lemma {:induction false} RunKeepsReceivedTrue(b: Books, calls: seq<Args>)
    requires ReceivedIsTrue(b)
    ensures ReceivedIsTrue(RunSyncs(b, calls))
  {
    if calls != [] {
      var b1 := RunSyncs(b, calls[..|calls| - 1]);
      var a := calls[|calls| - 1];
      RunKeepsReceivedTrue(b, calls[..|calls| - 1]);
      if a.receiptId < |b1.receipts| && Synced(b1, a).Some? {
        SyncKeepsReceivedTrue(b1, a);
      }
    }
  }
}

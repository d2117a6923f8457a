/** `bulkSyncMeterReadings`: many readings in one transaction, the last one per equipment wins. */
module BulkMeterSync {
  import opened Common
  import opened Tables
  import opened AvailabilityReports
  import opened MeterSync
  import opened WorkOrders

  const MAX_READINGS := 500

  datatype RawReading = NotANumber | Fractional | Whole(value: int)
  datatype RawItem = RawItem(equipmentId: Option<EquipmentId>, reading: RawReading, confirmed: bool)

  datatype Item = Item(equipmentId: EquipmentId, newReading: int, confirmed: bool)

  datatype Verdict =
    | NotFoundOrForbidden
    | LowerThanCurrent(serverValue: int)
    | Unchanged
    | JumpRequiresConfirmation(server: int, delta: int)
    | Applied(from: int, to: int)

  datatype BulkResult = BulkResult(successCount: nat, unchangedCount: nat, errors: seq<(EquipmentId, Verdict)>,
                                   applied: seq<(EquipmentId, int, int)>)

  function ItemError(it: RawItem): Option<Error> {
    if it.equipmentId.None? || it.reading.NotANumber? then Some(InvalidItem)
    else if it.reading.Fractional? || it.reading.value < 0 then Some(InvalidReading)
    else None
  }

  predicate AllValid(raw: seq<RawItem>) {
    forall k :: 0 <= k < |raw| ==> ItemError(raw[k]) == None
  }

  /** Map.set: an existing key keeps its place and takes the new value. */
  function MapSet(m: seq<Item>, it: Item): seq<Item> {
    if m == [] then [it]
    else if m[0].equipmentId == it.equipmentId then [it] + m[1..]
    else [m[0]] + MapSet(m[1..], it)
  }

  function Merged(raw: seq<RawItem>): seq<Item>
    requires AllValid(raw)
  {
    if raw == [] then []
    else
      var last := raw[|raw| - 1];
      assert ItemError(last) == None;
      MapSet(Merged(raw[..|raw| - 1]), Item(last.equipmentId.value, last.reading.value, last.confirmed))
  }

  /** What a reading means for one row, looking at nothing but that row. */
  function Judge(s: State, who: Caller, visible: set<EquipmentId>, it: Item): Verdict {
    if !(Owns(s, who.tenant, it.equipmentId) && it.equipmentId in visible) then NotFoundOrForbidden
    else
      var row := s.equipment[it.equipmentId];
      if it.newReading < row.currentMeter then LowerThanCurrent(row.currentMeter)
      else if it.newReading == row.currentMeter then Unchanged
      else if it.newReading - row.currentMeter > JumpLimit(row.meterType) && !it.confirmed
      then JumpRequiresConfirmation(row.currentMeter, it.newReading - row.currentMeter)
      else Applied(row.currentMeter, it.newReading)
  }

  function SyncOne(s: State, who: Caller, visible: set<EquipmentId>, it: Item): State {
    match Judge(s, who, visible, it)
    case Applied(from, to) =>
      MeterChanged(s, MeterChange(who.tenant, it.equipmentId, from, to, ManualEntry, None, who.userId))
    case _ => s
  }

  function Tally(r: BulkResult, e: EquipmentId, v: Verdict): BulkResult {
    match v
    case Unchanged => r.(unchangedCount := r.unchangedCount + 1)
    case Applied(from, to) => r.(successCount := r.successCount + 1, applied := r.applied + [(e, from, to)])
    case _ => r.(errors := r.errors + [(e, v)])
  }

  /** The loop over the merged items, one after the other on the same tables. */
  function SyncAll(s: State, who: Caller, visible: set<EquipmentId>, items: seq<Item>): (State, BulkResult) {
    if items == [] then (s, BulkResult(0, 0, [], []))
    else
      var (s1, r1) := SyncAll(s, who, visible, items[..|items| - 1]);
      var it := items[|items| - 1];
      (SyncOne(s1, who, visible, it), Tally(r1, it.equipmentId, Judge(s1, who, visible, it)))
  }

  function FirstError(raw: seq<RawItem>): Option<Error> {
    if raw == [] then None
    else if ItemError(raw[0]).Some? then ItemError(raw[0])
    else FirstError(raw[1..])
  }

  lemma FirstErrorNone(raw: seq<RawItem>)
    ensures FirstError(raw) == None <==> AllValid(raw)
  {
  }

  function BulkSync(s: State, who: Caller, visible: set<EquipmentId>, raw: seq<RawItem>): Tx<BulkResult> {
    if raw == [] then Aborted(EmptyRequest)
    else if |raw| > MAX_READINGS then Aborted(TooManyReadings)
    else if FirstError(raw).Some? then Aborted(FirstError(raw).value)
    else
      FirstErrorNone(raw);
      var (s1, r) := SyncAll(s, who, visible, Merged(raw));
      Committed(s1, r)
  }

  lemma FirstErrorAt(raw: seq<RawItem>, k: nat)
    requires k < |raw| && AllValid(raw[..k]) && ItemError(raw[k]).Some?
    ensures FirstError(raw) == ItemError(raw[k])
  {
    if k > 0 {
      assert raw[0] == raw[..k][0];
      assert raw[1..][..k - 1] == raw[..k][1..];
      FirstErrorAt(raw[1..], k - 1);
    }
  }

  /** The first loop: reject the request at its first invalid item, or merge all of them. */
  method MergeReadings(raw: seq<RawItem>) returns (out: Outcome<seq<Item>>)
    ensures FirstError(raw).Some? ==> out == Failure(FirstError(raw).value)
    ensures FirstError(raw).None? ==> AllValid(raw) && out == Success(Merged(raw))
  {
    var items: seq<Item> := [];
    for k := 0 to |raw|
      invariant AllValid(raw[..k]) && items == Merged(raw[..k])
    {
      var it := raw[k];
      var error := ItemError(it);
      if error.Some? {
        FirstErrorAt(raw, k);
        return Failure(error.value);
      }
      assert raw[..k + 1][..k] == raw[..k];
      items := MapSet(items, Item(it.equipmentId.value, it.reading.value, it.confirmed));
    }
    assert raw[..|raw|] == raw;
    FirstErrorNone(raw);
    return Success(items);
  }

  method SyncReading(db: Database, who: Caller, visible: set<EquipmentId>, it: Item) returns (v: Verdict)
    modifies db`equipment, db`meterLog
    ensures v == Judge(old(db.Snapshot()), who, visible, it)
    ensures db.Snapshot() == SyncOne(old(db.Snapshot()), who, visible, it)
  {
    var e := it.equipmentId;
    if !(Owns(db.Snapshot(), who.tenant, e) && e in visible) {
      return NotFoundOrForbidden;
    }
    var current := db.equipment[e].currentMeter;
    if it.newReading < current {
      return LowerThanCurrent(current);
    }
    if it.newReading == current {
      return Unchanged;
    }
    var delta := it.newReading - current;
    if delta > JumpLimit(db.equipment[e].meterType) && !it.confirmed {
      return JumpRequiresConfirmation(current, delta);
    }
    ApplyCurrentMeterChange(db, MeterChange(who.tenant, e, current, it.newReading, ManualEntry, None, who.userId));
    return Applied(current, it.newReading);
  }

  method BulkSyncMeterReadings(db: Database, who: Caller, visible: set<EquipmentId>, raw: seq<RawItem>)
    returns (out: Outcome<BulkResult>)
    modifies db
    ensures Follows(old(db.Snapshot()), BulkSync(old(db.Snapshot()), who, visible, raw), db.Snapshot(), out)
  {
    if |raw| == 0 {
      return Failure(EmptyRequest);
    }
    if |raw| > MAX_READINGS {
      return Failure(TooManyReadings);
    }
    var merged := MergeReadings(raw);
    if merged.Failure? {
      return Failure(merged.error);
    }
    var items := merged.value;
    var result := BulkResult(0, 0, [], []);
    for k := 0 to |items|
      invariant (db.Snapshot(), result) == SyncAll(old(db.Snapshot()), who, visible, items[..k])
    {
      assert items[..k + 1][..k] == items[..k];
      var v := SyncReading(db, who, visible, items[k]);
      result := Tally(result, items[k].equipmentId, v);
    }
    assert items[..|items|] == items;
    return Success(result);
  }

  // ---------------------------------------------------------------- refinement

  ghost predicate DistinctIds(items: seq<Item>) {
    forall i, j :: 0 <= i < j < |items| ==> items[i].equipmentId != items[j].equipmentId
  }

  /** The last raw item sent for an equipment. */
  function LastFor(raw: seq<RawItem>, e: EquipmentId): Option<RawItem> {
    if raw == [] then None
    else if raw[|raw| - 1].equipmentId == Some(e) then Some(raw[|raw| - 1])
    else LastFor(raw[..|raw| - 1], e)
  }

  ghost predicate HasId(items: seq<Item>, e: EquipmentId) {
    exists x :: x in items && x.equipmentId == e
  }

  lemma DistinctCons(x: Item, rest: seq<Item>)
    ensures DistinctIds([x] + rest) <==> DistinctIds(rest) && !HasId(rest, x.equipmentId)
    ensures forall y :: y in [x] + rest <==> y == x || y in rest
  {
    var all := [x] + rest;
    assert forall k :: 0 <= k < |rest| ==> all[k + 1] == rest[k];
    assert forall i :: 0 < i < |all| ==> all[i] == rest[i - 1];
    if HasId(rest, x.equipmentId) {
      var k :| 0 <= k < |rest| && rest[k].equipmentId == x.equipmentId;
      assert all[k + 1].equipmentId == all[0].equipmentId;
    }
    if DistinctIds(all) {
      forall i, j | 0 <= i < j < |rest|
        ensures rest[i].equipmentId != rest[j].equipmentId
      {
        assert all[i + 1].equipmentId != all[j + 1].equipmentId;
      }
    }
  }

  lemma {:induction false} MapSetMeaning(m: seq<Item>, it: Item)
    requires DistinctIds(m)
    ensures DistinctIds(MapSet(m, it))
    ensures forall x :: x in MapSet(m, it) <==> x == it || (x in m && x.equipmentId != it.equipmentId)
  {
    if m != [] {
      var tail := m[1..];
      assert m == [m[0]] + tail;
      DistinctCons(m[0], tail);
      if m[0].equipmentId == it.equipmentId {
        DistinctCons(it, tail);
      } else {
        MapSetMeaning(tail, it);
        DistinctCons(m[0], MapSet(tail, it));
      }
    }
  }

  /** One merged item per distinct equipment: the last one sent for it. */
  lemma {:induction false} MergedMeaning(raw: seq<RawItem>)
    requires AllValid(raw)
    ensures DistinctIds(Merged(raw))
    ensures forall x :: x in Merged(raw) <==>
              LastFor(raw, x.equipmentId) == Some(RawItem(Some(x.equipmentId), Whole(x.newReading), x.confirmed))
  {
    if raw != [] {
      var last := raw[|raw| - 1];
      assert ItemError(last) == None;
      MergedMeaning(raw[..|raw| - 1]);
      MapSetMeaning(Merged(raw[..|raw| - 1]), Item(last.equipmentId.value, last.reading.value, last.confirmed));
    }
  }

  /** A reading for one equipment does not change what a reading for another one means. */
  lemma JudgeLocal(s: State, s': State, who: Caller, visible: set<EquipmentId>, it: Item)
    requires it.equipmentId in s.equipment <==> it.equipmentId in s'.equipment
    requires it.equipmentId in s.equipment ==> s.equipment[it.equipmentId] == s'.equipment[it.equipmentId]
    ensures Judge(s, who, visible, it) == Judge(s', who, visible, it)
  {
  }

  /** The row of an equipment after its own reading, applied to the starting tables alone. */
  function RowAfter(s: State, who: Caller, visible: set<EquipmentId>, it: Item): Equipment
    requires it.equipmentId in s.equipment
  {
    SyncOne(s, who, visible, it).equipment[it.equipmentId]
  }

  /** The tables after the loop: each listed row as its own item leaves it, every other row as it was. */
  ghost predicate Independent(s: State, s': State, who: Caller, visible: set<EquipmentId>, items: seq<Item>) {
    && s'.equipment.Keys == s.equipment.Keys
    && (forall it :: it in items && it.equipmentId in s.equipment ==>
          s'.equipment[it.equipmentId] == RowAfter(s, who, visible, it))
    && (forall e :: e in s.equipment && !HasId(items, e) ==> s'.equipment[e] == s.equipment[e])
  }

  lemma SyncOneLocal(s: State, s1: State, who: Caller, visible: set<EquipmentId>, it: Item)
    requires s1.equipment.Keys == s.equipment.Keys
    requires it.equipmentId in s.equipment ==> s1.equipment[it.equipmentId] == s.equipment[it.equipmentId]
    ensures var s2 := SyncOne(s1, who, visible, it);
            && s2.equipment.Keys == s.equipment.Keys
            && (it.equipmentId in s.equipment ==> s2.equipment[it.equipmentId] == RowAfter(s, who, visible, it))
            && (forall e :: e in s.equipment && e != it.equipmentId ==> s2.equipment[e] == s1.equipment[e])
  {
  }

  /** The sequential loop does to each equipment what its own item does alone, and nothing else. */
  lemma {:induction false} SyncAllIsIndependent(s: State, who: Caller, visible: set<EquipmentId>, items: seq<Item>)
    requires DistinctIds(items)
    ensures Independent(s, SyncAll(s, who, visible, items).0, who, visible, items)
  {
    if items != [] {
      var rest, it := items[..|items| - 1], items[|items| - 1];
      SyncAllIsIndependent(s, who, visible, rest);
      var s1 := SyncAll(s, who, visible, rest).0;
      var s2 := SyncAll(s, who, visible, items).0;
      assert !HasId(rest, it.equipmentId);
      SyncOneLocal(s, s1, who, visible, it);
      assert forall x :: x in items <==> x in rest || x == it;
      forall e | e in s.equipment && !HasId(items, e)
        ensures s2.equipment[e] == s.equipment[e]
      {
        assert it in items && !HasId(rest, e);
      }
    }
  }

  ghost function VerdictCount(s: State, who: Caller, visible: set<EquipmentId>, items: seq<Item>, v: Verdict -> bool): nat {
    if items == [] then 0
    else VerdictCount(s, who, visible, items[..|items| - 1], v)
         + if v(Judge(s, who, visible, items[|items| - 1])) then 1 else 0
  }

  /** The counters count the verdicts on the starting tables. */
  lemma {:induction false} CountsAreIndependent(s: State, who: Caller, visible: set<EquipmentId>, items: seq<Item>)
    requires DistinctIds(items)
    ensures var r := SyncAll(s, who, visible, items).1;
            && r.successCount == VerdictCount(s, who, visible, items, (v: Verdict) => v.Applied?)
            && r.unchangedCount == VerdictCount(s, who, visible, items, (v: Verdict) => v.Unchanged?)
            && r.successCount + r.unchangedCount + |r.errors| == |items|
            && |r.applied| == r.successCount
  {
    if items != [] {
      var rest, it := items[..|items| - 1], items[|items| - 1];
      CountsAreIndependent(s, who, visible, rest);
      SyncAllIsIndependent(s, who, visible, rest);
      assert !HasId(rest, it.equipmentId);
      JudgeLocal(s, SyncAll(s, who, visible, rest).0, who, visible, it);
    }
  }

  /** Ids named by the request. */
  function RequestedIds(raw: seq<RawItem>): set<EquipmentId> {
    set it | it in raw && it.equipmentId.Some? :: it.equipmentId.value
  }

  lemma DistinctIdsCount(items: seq<Item>)
    requires DistinctIds(items)
    ensures |set it | it in items :: it.equipmentId| == |items|
  {
    if items != [] {
      var rest, it := items[..|items| - 1], items[|items| - 1];
      DistinctIdsCount(rest);
      var ids := set x | x in rest :: x.equipmentId;
      assert items == rest + [it];
      assert (set x | x in items :: x.equipmentId) == ids + {it.equipmentId};
      assert it.equipmentId !in ids;
    }
  }

  lemma {:induction false} LastForRequested(raw: seq<RawItem>, e: EquipmentId)
    ensures LastFor(raw, e).Some? <==> e in RequestedIds(raw)
    ensures LastFor(raw, e).Some? ==> LastFor(raw, e).value in raw && LastFor(raw, e).value.equipmentId == Some(e)
  {
    if raw != [] {
      var rest, last := raw[..|raw| - 1], raw[|raw| - 1];
      LastForRequested(rest, e);
      assert raw == rest + [last];
      assert forall it :: it in raw <==> it in rest || it == last;
      if last.equipmentId != Some(e) {
        if e in RequestedIds(raw) {
          var it :| it in raw && it.equipmentId == Some(e);
          assert it in rest;
        }
      } else {
        assert last in raw;
      }
    }
  }

  lemma MergedIds(raw: seq<RawItem>)
    requires AllValid(raw)
    ensures RequestedIds(raw) == set it | it in Merged(raw) :: it.equipmentId
  {
    var items := Merged(raw);
    MergedMeaning(raw);
    forall x: EquipmentId
      ensures x in RequestedIds(raw) <==> HasId(items, x)
    {
      LastForRequested(raw, x);
      if x in RequestedIds(raw) {
        var it := LastFor(raw, x).value;
        assert ItemError(it) == None;
        assert Item(x, it.reading.value, it.confirmed) in items;
      }
    }
  }

  /** Every distinct id of an accepted request is accounted for exactly once. */
  lemma BulkSyncCounts(s: State, who: Caller, visible: set<EquipmentId>, raw: seq<RawItem>)
    requires BulkSync(s, who, visible, raw).Committed?
    ensures var r := BulkSync(s, who, visible, raw).value;
            r.successCount + r.unchangedCount + |r.errors| == |RequestedIds(raw)| && |r.applied| == r.successCount
  {
    FirstErrorNone(raw);
    MergedMeaning(raw);
    MergedIds(raw);
    DistinctIdsCount(Merged(raw));
    CountsAreIndependent(s, who, visible, Merged(raw));
  }

  /** A row's own verdict never lowers its meter, nor raises it past 24 hours or 500 kilometres without confirmation. */
  lemma RowAfterBounds(s: State, who: Caller, visible: set<EquipmentId>, it: Item)
    requires it.equipmentId in s.equipment
    ensures RowAfter(s, who, visible, it).currentMeter >= s.equipment[it.equipmentId].currentMeter
    ensures !it.confirmed ==> RowAfter(s, who, visible, it).currentMeter - s.equipment[it.equipmentId].currentMeter
                              <= JumpLimit(s.equipment[it.equipmentId].meterType)
    ensures JumpLimit(s.equipment[it.equipmentId].meterType) ==
            if s.equipment[it.equipmentId].meterType == Hours then 24 else 500
  {
  }

  /**
   * The whole request, seen from one equipment: a row the request does not name stays as it
   * was, a named one is what its last reading makes of it alone; no meter goes back, and
   * without confirmation none passes its limit.
   */
  lemma BulkSyncRefines(s: State, who: Caller, visible: set<EquipmentId>, raw: seq<RawItem>, e: EquipmentId)
    requires BulkSync(s, who, visible, raw).Committed? && e in s.equipment
    ensures var s' := BulkSync(s, who, visible, raw).state;
            && e in s'.equipment
            && s'.equipment[e].currentMeter >= s.equipment[e].currentMeter
            && (match LastFor(raw, e)
                case None => s'.equipment[e] == s.equipment[e]
                case Some(it) =>
                  && it.reading.Whole?
                  && s'.equipment[e] == RowAfter(s, who, visible, Item(e, it.reading.value, it.confirmed))
                  && (!it.confirmed ==> s'.equipment[e].currentMeter - s.equipment[e].currentMeter
                                        <= JumpLimit(s.equipment[e].meterType)))
  {
    FirstErrorNone(raw);
    var items := Merged(raw);
    assert BulkSync(s, who, visible, raw).state == SyncAll(s, who, visible, items).0;
    MergedMeaning(raw);
    SyncAllIsIndependent(s, who, visible, items);
    LastForRequested(raw, e);
    if LastFor(raw, e).Some? {
      var it := LastFor(raw, e).value;
      assert ItemError(it) == None;
      var own := Item(e, it.reading.value, it.confirmed);
      assert own in items;
      RowAfterBounds(s, who, visible, own);
    }
  }

  // -------------------------------------------------------- the outcome, spelled out

  /** An item the request may hold: an id and a whole reading of at least zero. */
  predicate WellFormed(it: RawItem) {
    it.equipmentId != None && it.reading.Whole? && it.reading.value >= 0
  }

  lemma {:induction false} FirstErrorSpelled(raw: seq<RawItem>)
    ensures FirstError(raw) == None <==> forall k :: 0 <= k < |raw| ==> WellFormed(raw[k])
    ensures FirstError(raw) != None ==>
              exists k :: 0 <= k < |raw| && !WellFormed(raw[k]) && (forall j :: 0 <= j < k ==> WellFormed(raw[j]))
                          && FirstError(raw) == Some(if raw[k].equipmentId == None || raw[k].reading.NotANumber?
                                                     then InvalidItem else InvalidReading)
  {
    if raw != [] {
      var rest := raw[1..];
      FirstErrorSpelled(rest);
      assert forall k :: 0 <= k < |rest| ==> rest[k] == raw[k + 1];
      if WellFormed(raw[0]) {
        assert (forall k :: 0 <= k < |rest| ==> WellFormed(rest[k])) ==> forall k :: 0 < k < |raw| ==> WellFormed(raw[k]) by {
          assert forall k :: 0 < k < |raw| ==> raw[k] == rest[k - 1];
        }
        if FirstError(rest) != None {
          var k :| 0 <= k < |rest| && !WellFormed(rest[k]) && (forall j :: 0 <= j < k ==> WellFormed(rest[j]))
                   && FirstError(rest) == Some(if rest[k].equipmentId == None || rest[k].reading.NotANumber?
                                               then InvalidItem else InvalidReading);
          assert !WellFormed(raw[k + 1]);
          forall j | 0 <= j < k + 1
            ensures WellFormed(raw[j])
          {
            if j > 0 {
              assert raw[j] == rest[j - 1];
            }
          }
        }
      } else {
        assert !WellFormed(raw[0]);
      }
    }
  }

  /** A request commits exactly when it has between 1 and 500 items, all well formed. */
  lemma BulkAcceptedIff(s: State, who: Caller, visible: set<EquipmentId>, raw: seq<RawItem>)
    ensures var tx := BulkSync(s, who, visible, raw);
            && (tx.Committed? <==> 1 <= |raw| <= 500 && forall k :: 0 <= k < |raw| ==> WellFormed(raw[k]))
            && (tx == Aborted(EmptyRequest) <==> raw == [])
            && (tx == Aborted(TooManyReadings) <==> |raw| > 500)
  {
    FirstErrorSpelled(raw);
  }

  /** The largest unconfirmed step of a meter: 24 hours or 500 kilometres. */
  function LargestStep(meterType: MeterType): int {
    match meterType
    case Hours => 24
    case Kilometers => 500
  }

  /** The row belongs to the tenant and the caller may see it. */
  predicate Reachable(s: State, who: Caller, visible: set<EquipmentId>, e: EquipmentId) {
    e in s.equipment && s.equipment[e].tenant == who.tenant && e in visible
  }

  predicate StepAllowed(row: Equipment, v: int, confirmed: bool) {
    v - row.currentMeter <= LargestStep(row.meterType) || confirmed
  }

  /**
   * The meter of every equipment after an accepted request: the last reading sent for it, when
   * the row can be reached, the reading is not below the meter, and the step is small or
   * confirmed; in every other case the row is as it was.
   */
  lemma FinalRowExact(s: State, who: Caller, visible: set<EquipmentId>, raw: seq<RawItem>, e: EquipmentId)
    requires BulkSync(s, who, visible, raw).Committed? && e in s.equipment
    ensures var s' := BulkSync(s, who, visible, raw).state;
            var row := s.equipment[e];
            && e in s'.equipment
            && match LastFor(raw, e)
               case None => s'.equipment[e] == row
               case Some(it) =>
                 && it.reading.Whole?
                 && var v := it.reading.value;
                    s'.equipment[e] ==
                    if Reachable(s, who, visible, e) && v >= row.currentMeter && StepAllowed(row, v, it.confirmed)
                    then row.(currentMeter := v) else row
  {
    BulkSyncRefines(s, who, visible, raw, e);
  }

  /** The verdict a reading deserves. */
  ghost predicate Deserves(s: State, who: Caller, visible: set<EquipmentId>, e: EquipmentId, v: int, confirmed: bool,
                           verdict: Verdict) {
    if !Reachable(s, who, visible, e) then verdict == NotFoundOrForbidden
    else
      var row := s.equipment[e];
      if v < row.currentMeter then verdict == LowerThanCurrent(row.currentMeter)
      else if v == row.currentMeter then verdict == Unchanged
      else if !StepAllowed(row, v, confirmed)
      then verdict == JumpRequiresConfirmation(row.currentMeter, v - row.currentMeter)
      else verdict == Applied(row.currentMeter, v)
  }

  lemma JudgedAsDeserved(s: State, who: Caller, visible: set<EquipmentId>, it: Item)
    ensures Deserves(s, who, visible, it.equipmentId, it.newReading, it.confirmed, Judge(s, who, visible, it))
  {
  }

  /** What the result lists for one equipment: an error, an applied change, or nothing for an unchanged meter. */
  ghost predicate ListedAs(r: BulkResult, e: EquipmentId, verdict: Verdict) {
    && (forall x :: (e, x) in r.errors <==> x == verdict && !verdict.Unchanged? && !verdict.Applied?)
    && (forall from, to :: (e, from, to) in r.applied <==> verdict == Applied(from, to))
  }

  ghost predicate ListsNothing(r: BulkResult, e: EquipmentId) {
    (forall x :: (e, x) !in r.errors) && (forall from, to :: (e, from, to) !in r.applied)
  }

  lemma TallyLists(r: BulkResult, e: EquipmentId, v: Verdict, x: EquipmentId)
    ensures x != e && ListsNothing(r, x) ==> ListsNothing(Tally(r, e, v), x)
    ensures forall w :: x != e && ListedAs(r, x, w) ==> ListedAs(Tally(r, e, v), x, w)
    ensures x == e && ListsNothing(r, x) ==> ListedAs(Tally(r, e, v), x, v)
  {
  }

  lemma {:induction false} ResultListsVerdicts(s: State, who: Caller, visible: set<EquipmentId>, items: seq<Item>,
                                               e: EquipmentId)
    requires DistinctIds(items)
    ensures var r := SyncAll(s, who, visible, items).1;
            && (!HasId(items, e) ==> ListsNothing(r, e))
            && (forall it :: it in items && it.equipmentId == e ==> ListedAs(r, e, Judge(s, who, visible, it)))
  {
    if items != [] {
      var rest, last := items[..|items| - 1], items[|items| - 1];
      ResultListsVerdicts(s, who, visible, rest, e);
      SyncAllIsIndependent(s, who, visible, rest);
      assert !HasId(rest, last.equipmentId);
      var s1 := SyncAll(s, who, visible, rest).0;
      JudgeLocal(s, s1, who, visible, last);
      TallyLists(SyncAll(s, who, visible, rest).1, last.equipmentId, Judge(s, who, visible, last), e);
      assert forall x :: x in items <==> x in rest || x == last;
      if !HasId(items, e) {
        assert last in items && !HasId(rest, e);
      }
    }
  }

  /** Every equipment named by an accepted request is listed with the verdict its last reading deserves; no other one is. */
  lemma VerdictsExact(s: State, who: Caller, visible: set<EquipmentId>, raw: seq<RawItem>, e: EquipmentId)
    requires BulkSync(s, who, visible, raw).Committed?
    ensures var r := BulkSync(s, who, visible, raw).value;
            match LastFor(raw, e)
            case None => ListsNothing(r, e)
            case Some(it) =>
              it.reading.Whole?
              && exists verdict :: Deserves(s, who, visible, e, it.reading.value, it.confirmed, verdict)
                                   && ListedAs(r, e, verdict)
  {
    FirstErrorNone(raw);
    var items := Merged(raw);
    MergedMeaning(raw);
    ResultListsVerdicts(s, who, visible, items, e);
    LastForRequested(raw, e);
    MergedIds(raw);
    if LastFor(raw, e).Some? {
      var it := LastFor(raw, e).value;
      assert ItemError(it) == None;
      var own := Item(e, it.reading.value, it.confirmed);
      assert own in items;
      JudgedAsDeserved(s, who, visible, own);
    }
  }

  /** Ids in the order in which the request first names them. */
  function FirstNamed(raw: seq<RawItem>): seq<EquipmentId> {
    if raw == [] then []
    else
      var front := FirstNamed(raw[..|raw| - 1]);
      var e := raw[|raw| - 1].equipmentId;
      if e.None? || e.value in front then front else front + [e.value]
  }

  function Ids(items: seq<Item>): seq<EquipmentId> {
    seq(|items|, k requires 0 <= k < |items| => items[k].equipmentId)
  }

  lemma {:induction false} MapSetIds(m: seq<Item>, it: Item)
    ensures Ids(MapSet(m, it)) == if it.equipmentId in Ids(m) then Ids(m) else Ids(m) + [it.equipmentId]
  {
    if m != [] {
      assert Ids(m) == [m[0].equipmentId] + Ids(m[1..]);
      if m[0].equipmentId == it.equipmentId {
        assert Ids([it] + m[1..]) == [it.equipmentId] + Ids(m[1..]);
      } else {
        MapSetIds(m[1..], it);
        assert Ids([m[0]] + MapSet(m[1..], it)) == [m[0].equipmentId] + Ids(MapSet(m[1..], it));
      }
    }
  }

  /** A repeated id keeps the place of its first item. */
  lemma {:induction false} MergedOrder(raw: seq<RawItem>)
    requires AllValid(raw)
    ensures Ids(Merged(raw)) == FirstNamed(raw)
  {
    if raw != [] {
      var last := raw[|raw| - 1];
      assert ItemError(last) == None;
      MergedOrder(raw[..|raw| - 1]);
      MapSetIds(Merged(raw[..|raw| - 1]), Item(last.equipmentId.value, last.reading.value, last.confirmed));
    }
  }
}

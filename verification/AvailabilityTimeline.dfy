/**
 * The availability event timeline: events may be registered for any moment, in any order;
 * `Register` repairs the new row and its direct successor only.
 */
module AvailabilityTimeline {
  import opened Common
  import opened Tables

  const MS_PER_MINUTE := 60_000

  datatype RegisterInput = RegisterInput(tenant: TenantId, equipmentId: EquipmentId, availabilityId: Option<nat>,
                                         faultReportId: Option<nat>, reportedBy: Option<UserId>,
                                         status: OperationalStatus, previousStatus: Option<OperationalStatus>,
                                         meterReading: Option<int>, comments: Option<string>, eventAt: int,
                                         source: Option<EventSource>)

  /** The order of a timeline: (eventAt, createdAt, id), ascending. */
  predicate Before(a: Event, b: Event) {
    || a.eventAt < b.eventAt
    || (a.eventAt == b.eventAt && a.createdAt < b.createdAt)
    || (a.eventAt == b.eventAt && a.createdAt == b.createdAt && a.id < b.id)
  }

  predicate SameTimeline(a: Event, b: Event) {
    a.tenant == b.tenant && a.equipmentId == b.equipmentId
  }

  /** Whole minutes from one event to the next; the source clamps a negative gap to 0. */
  function GapMinutes(from: Event, to: Event): int {
    Max(0, (to.eventAt - from.eventAt) / MS_PER_MINUTE)
  }

  /** findFirst below `e`, ordered descending: the latest earlier row of e's timeline. */
  function PrecedingRow(rows: seq<Event>, e: Event): (r: Option<nat>)
    ensures r.None? ==> forall q :: 0 <= q < |rows| && SameTimeline(rows[q], e) ==> !Before(rows[q], e)
    ensures r.Some? ==> r.value < |rows| && SameTimeline(rows[r.value], e) && Before(rows[r.value], e)
    ensures r.Some? ==> forall q :: 0 <= q < |rows| && SameTimeline(rows[q], e) && Before(rows[q], e) ==>
                                      !Before(rows[r.value], rows[q])
  {
    if rows == [] then None
    else
      var last := |rows| - 1;
      var r := PrecedingRow(rows[..last], e);
      if SameTimeline(rows[last], e) && Before(rows[last], e) && (r.None? || Before(rows[r.value], rows[last]))
      then Some(last) else r
  }

  /** findFirst above `e`, ordered ascending: the earliest later row of e's timeline. */
  function FollowingRow(rows: seq<Event>, e: Event): (r: Option<nat>)
    ensures r.None? ==> forall q :: 0 <= q < |rows| && SameTimeline(rows[q], e) ==> !Before(e, rows[q])
    ensures r.Some? ==> r.value < |rows| && SameTimeline(rows[r.value], e) && Before(e, rows[r.value])
    ensures r.Some? ==> forall q :: 0 <= q < |rows| && SameTimeline(rows[q], e) && Before(e, rows[q]) ==>
                                      !Before(rows[q], rows[r.value])
  {
    if rows == [] then None
    else
      var last := |rows| - 1;
      var r := FollowingRow(rows[..last], e);
      if SameTimeline(rows[last], e) && Before(e, rows[last]) && (r.None? || Before(rows[last], rows[r.value]))
      then Some(last) else r
  }

  // ---------------------------------------------------------------- register

  /** The origin checks, and the unique constraints on the row id and on faultReportId. */
  function Rejection(rows: seq<Event>, faults: seq<Fault>, input: RegisterInput, id: int): Option<EventError> {
    match input.source.GetOr(Manual)
    case FromFault =>
      if input.faultReportId.None? then Some(FaultReportIdRequired)
      else if input.availabilityId.Some? then Some(AvailabilityIdNotAllowed)
      else if !(input.faultReportId.value < |faults|
                && faults[input.faultReportId.value].tenant == input.tenant
                && faults[input.faultReportId.value].equipmentId == input.equipmentId)
      then Some(FaultReportMismatch)
      else if exists q :: 0 <= q < |rows| && (rows[q].id == id || rows[q].faultReportId == input.faultReportId)
      then Some(UniqueViolation)
      else None
    case Ot => Some(SourceNotSupported)
    case _ =>
      if input.availabilityId.None? then Some(AvailabilityIdRequired)
      else if input.faultReportId.Some? then Some(FaultReportIdNotAllowed)
      else if exists q :: 0 <= q < |rows| && rows[q].id == id then Some(UniqueViolation)
      else None
  }

  /** The row as first created, before its derived fields are known. */
  function InitialEvent(input: RegisterInput, id: int, createdAt: int): Event {
    Event(id, input.tenant, input.equipmentId, input.availabilityId, input.faultReportId, input.reportedBy,
          input.status, None, input.meterReading, input.comments, input.eventAt, input.source.GetOr(Manual),
          None, createdAt)
  }

  /** The table after `e` is appended and the two rows next to it are repaired. */
  function Inserted(rows: seq<Event>, e: Event, declared: Option<OperationalStatus>): (r: seq<Event>)
    ensures |r| == |rows| + 1
  {
    var created := rows + [e];
    var p := PrecedingRow(created, e);
    var s := FollowingRow(created, e);
    var own := e.(previousStatus := if p.Some? then Some(declared.GetOr(created[p.value].status)) else declared,
                  elapsedMinutes := if p.Some? then Some(GapMinutes(created[p.value], e)) else None);
    var repaired := created[|rows| := own];
    if s.None? then repaired
    else repaired[s.value := repaired[s.value].(previousStatus := Some(e.status),
                                                elapsedMinutes := Some(GapMinutes(e, created[s.value])))]
  }

  datatype Registration = Registered(events: seq<Event>) | Rejected(error: EventError)

  function Register(rows: seq<Event>, faults: seq<Fault>, input: RegisterInput, id: int, createdAt: int): Registration {
    var rejection := Rejection(rows, faults, input, id);
    if rejection.Some? then Rejected(rejection.value)
    else Registered(Inserted(rows, InitialEvent(input, id, createdAt), input.previousStatus))
  }

  /** `register`: create the row, look up both neighbours, update the row and its successor in place. */
  method RegisterEvent(db: Database, input: RegisterInput, id: int, createdAt: int) returns (error: Option<EventError>)
    modifies db`events
    ensures match Register(old(db.events), db.faults, input, id, createdAt)
            case Registered(events) => error == None && db.events == events
            case Rejected(e) => error == Some(e) && db.events == old(db.events)
  {
    error := Rejection(db.events, db.faults, input, id);
    if error.Some? {
      return;
    }
    var initial := InitialEvent(input, id, createdAt);
    var position := |db.events|;
    db.events := db.events + [initial];
    var predecessor := PrecedingRow(db.events, initial);
    var successor := FollowingRow(db.events, initial);
    var previousStatus := input.previousStatus;
    var elapsedMinutes: Option<int> := None;
    if predecessor.Some? {
      var before := db.events[predecessor.value];
      if previousStatus.None? {
        previousStatus := Some(before.status);
      }
      elapsedMinutes := Some(GapMinutes(before, initial));
    }
    db.events := db.events[position := initial.(previousStatus := previousStatus, elapsedMinutes := elapsedMinutes)];
    if successor.Some? {
      var after := db.events[successor.value];
      db.events := db.events[successor.value := after.(previousStatus := Some(initial.status),
                                                       elapsedMinutes := Some(GapMinutes(initial, after)))];
    }
  }

  // ------------------------------------------------- what the derived fields mean

  ghost predicate UniqueIds(rows: seq<Event>) {
    forall i, j :: 0 <= i < j < |rows| ==> rows[i].id != rows[j].id
  }

  ghost predicate IsFirst(rows: seq<Event>, i: int) {
    0 <= i < |rows| && forall q :: 0 <= q < |rows| && SameTimeline(rows[q], rows[i]) ==> !Before(rows[q], rows[i])
  }

  /** Row p is the immediate predecessor of row i in their timeline. */
  ghost predicate Adjacent(rows: seq<Event>, p: int, i: int) {
    && 0 <= p < |rows| && 0 <= i < |rows|
    && SameTimeline(rows[p], rows[i]) && Before(rows[p], rows[i])
    && forall q :: 0 <= q < |rows| && SameTimeline(rows[q], rows[i]) && Before(rows[p], rows[q]) ==>
                     !Before(rows[q], rows[i])
  }

  ghost predicate ElapsedExact(rows: seq<Event>) {
    && (forall i :: IsFirst(rows, i) ==> rows[i].elapsedMinutes == None)
    && (forall p, i :: Adjacent(rows, p, i) ==> rows[i].elapsedMinutes == Some(GapMinutes(rows[p], rows[i])))
  }

  /**
   * `declared[i]` is the override row i was registered with. A predecessor registered
   * later imposes its own status; one registered earlier yields to the override.
   */
  ghost predicate StatusExact(rows: seq<Event>, declared: seq<Option<OperationalStatus>>) {
    && |declared| == |rows|
    && (forall i :: IsFirst(rows, i) ==> rows[i].previousStatus == declared[i])
    && (forall p, i :: Adjacent(rows, p, i) ==>
          rows[i].previousStatus == if p > i then Some(rows[p].status) else Some(declared[i].GetOr(rows[p].status)))
  }

  /** The same row up to its two derived fields. */
  predicate SameBase(a: Event, b: Event) {
    a == b.(previousStatus := a.previousStatus, elapsedMinutes := a.elapsedMinutes)
  }

  lemma InsertedBase(rows: seq<Event>, e: Event, declared: Option<OperationalStatus>)
    ensures var r := Inserted(rows, e, declared);
            && (forall i :: 0 <= i < |rows| ==> SameBase(r[i], rows[i]))
            && SameBase(r[|rows|], e)
            && (forall i :: 0 <= i < |rows| && !SameTimeline(rows[i], e) ==> r[i] == rows[i])
  {
  }

  /** Only the direct successor's derived fields are rewritten. */
  lemma InsertedFrame(rows: seq<Event>, e: Event, declared: Option<OperationalStatus>, i: nat)
    requires i < |rows|
    requires FollowingRow(rows + [e], e) != Some(i)
    ensures Inserted(rows, e, declared)[i] == rows[i]
  {
  }

  lemma BeforeTotal(rows: seq<Event>, i: nat, j: nat)
    requires UniqueIds(rows) && i < |rows| && j < |rows| && i != j
    ensures Before(rows[i], rows[j]) || Before(rows[j], rows[i])
  {
  }

  /** Old neighbours that are still neighbours kept their derived fields. */
  lemma OldPairUntouched(rows: seq<Event>, e: Event, declared: Option<OperationalStatus>, p: nat, i: nat)
    requires UniqueIds(rows + [e])
    requires p < |rows| && i < |rows| && Adjacent(Inserted(rows, e, declared), p, i)
    ensures Adjacent(rows, p, i) && Inserted(rows, e, declared)[i] == rows[i]
  {
    InsertedBase(rows, e, declared);
    var r := Inserted(rows, e, declared);
    forall q | 0 <= q < |rows| && SameTimeline(rows[q], rows[i]) && Before(rows[p], rows[q])
      ensures !Before(rows[q], rows[i])
    {
      assert SameTimeline(r[q], r[i]) && Before(r[p], r[q]);
    }
    var created := rows + [e];
    if FollowingRow(created, e) == Some(i) {
      assert r[|rows|].id == e.id;
      assert SameTimeline(r[|rows|], r[i]) && Before(r[|rows|], r[i]);
      assert !Before(r[p], r[|rows|]);
      BeforeTotal(created, p, |rows|);
      assert Before(created[|rows|], created[p]);
      assert SameTimeline(created[p], e);
      assert false;
    }
    InsertedFrame(rows, e, declared, i);
  }

  lemma FirstUntouched(rows: seq<Event>, e: Event, declared: Option<OperationalStatus>, i: nat)
    requires i < |rows| && IsFirst(Inserted(rows, e, declared), i)
    ensures IsFirst(rows, i) && Inserted(rows, e, declared)[i] == rows[i]
  {
    InsertedBase(rows, e, declared);
    var r := Inserted(rows, e, declared);
    forall q | 0 <= q < |rows| && SameTimeline(rows[q], rows[i])
      ensures !Before(rows[q], rows[i])
    {
      assert SameTimeline(r[q], r[i]);
    }
    assert SameTimeline(r[|rows|], r[i]) ==> !Before(r[|rows|], r[i]);
    InsertedFrame(rows, e, declared, i);
  }

  /** A neighbour pair that involves the new row is the one `register` looked up. */
  lemma NewPairFound(rows: seq<Event>, e: Event, declared: Option<OperationalStatus>, p: nat, i: nat)
    requires UniqueIds(rows + [e])
    requires p == |rows| || i == |rows|
    requires Adjacent(Inserted(rows, e, declared), p, i)
    ensures i == |rows| ==> PrecedingRow(rows + [e], e) == Some(p)
    ensures p == |rows| ==> FollowingRow(rows + [e], e) == Some(i)
  {
    InsertedBase(rows, e, declared);
    var r := Inserted(rows, e, declared);
    var created := rows + [e];
    if i == |rows| {
      var found := PrecedingRow(created, e);
      assert SameTimeline(created[p], e) && Before(created[p], e);
      if found.value != p {
        BeforeTotal(created, found.value, p);
        assert Before(r[p], r[found.value]) && SameTimeline(r[found.value], r[i]);
        assert false;
      }
    } else {
      var found := FollowingRow(created, e);
      assert SameTimeline(created[i], e) && Before(e, created[i]);
      if found.value != i {
        BeforeTotal(created, found.value, i);
        assert Before(r[p], r[found.value]) && SameTimeline(r[found.value], r[i]);
        assert false;
      }
    }
  }

  lemma NewFirst(rows: seq<Event>, e: Event, declared: Option<OperationalStatus>)
    requires IsFirst(Inserted(rows, e, declared), |rows|)
    ensures PrecedingRow(rows + [e], e) == None
    ensures Inserted(rows, e, declared)[|rows|] == e.(previousStatus := declared, elapsedMinutes := None)
  {
    InsertedBase(rows, e, declared);
    var r := Inserted(rows, e, declared);
    var found := PrecedingRow(rows + [e], e);
    if found.Some? {
      assert found.value < |rows|;
      assert SameTimeline(r[found.value], r[|rows|]) && Before(r[found.value], r[|rows|]);
      assert false;
    }
  }

  lemma InsertedNewRow(rows: seq<Event>, e: Event, d: Option<OperationalStatus>, p: nat)
    requires p < |rows| && PrecedingRow(rows + [e], e) == Some(p)
    ensures Inserted(rows, e, d)[|rows|].elapsedMinutes == Some(GapMinutes(rows[p], e))
    ensures Inserted(rows, e, d)[|rows|].previousStatus == Some(d.GetOr(rows[p].status))
  {
  }

  lemma InsertedSuccessor(rows: seq<Event>, e: Event, d: Option<OperationalStatus>, i: nat)
    requires i < |rows| && FollowingRow(rows + [e], e) == Some(i)
    ensures Inserted(rows, e, d)[i].elapsedMinutes == Some(GapMinutes(e, rows[i]))
    ensures Inserted(rows, e, d)[i].previousStatus == Some(e.status)
  {
  }

  /** What the table says about one neighbour pair (p, i), given the overrides of its rows. */
  ghost predicate PairExact(rows: seq<Event>, declared: seq<Option<OperationalStatus>>, p: int, i: int)
    requires 0 <= p < |rows| && 0 <= i < |rows| == |declared|
  {
    && rows[i].elapsedMinutes == Some(GapMinutes(rows[p], rows[i]))
    && rows[i].previousStatus == if p > i then Some(rows[p].status) else Some(declared[i].GetOr(rows[p].status))
  }

  lemma ExactPair(rows: seq<Event>, declared: seq<Option<OperationalStatus>>, p: nat, i: nat)
    requires ElapsedExact(rows) && StatusExact(rows, declared) && Adjacent(rows, p, i)
    ensures PairExact(rows, declared, p, i)
  {
  }

  /** The statement survives a change of the predecessor's derived fields and one more row. */
  lemma PairCarriesOver(rows: seq<Event>, rows': seq<Event>, declared: seq<Option<OperationalStatus>>,
                        d: Option<OperationalStatus>, p: nat, i: nat)
    requires |rows'| == |rows| + 1 && |declared| == |rows| && p < |rows| && i < |rows|
    requires rows'[i] == rows[i] && SameBase(rows'[p], rows[p]) && PairExact(rows, declared, p, i)
    ensures PairExact(rows', declared + [d], p, i)
  {
  }

  lemma InsertedOldPair(rows: seq<Event>, e: Event, d: Option<OperationalStatus>,
                        declared: seq<Option<OperationalStatus>>, p: nat, i: nat)
    requires UniqueIds(rows + [e]) && ElapsedExact(rows) && StatusExact(rows, declared)
    requires p < |rows| && i < |rows| && Adjacent(Inserted(rows, e, d), p, i)
    ensures PairExact(Inserted(rows, e, d), declared + [d], p, i)
  {
    OldPairUntouched(rows, e, d, p, i);
    ExactPair(rows, declared, p, i);
    assert SameBase(Inserted(rows, e, d)[p], rows[p]) by {
      InsertedBase(rows, e, d);
    }
    PairCarriesOver(rows, Inserted(rows, e, d), declared, d, p, i);
  }

  lemma InsertedNewPair(rows: seq<Event>, e: Event, d: Option<OperationalStatus>,
                        declared: seq<Option<OperationalStatus>>, p: nat, i: nat)
    requires UniqueIds(rows + [e]) && |declared| == |rows|
    requires (p == |rows| || i == |rows|) && Adjacent(Inserted(rows, e, d), p, i)
    ensures PairExact(Inserted(rows, e, d), declared + [d], p, i)
  {
    NewPairFound(rows, e, d, p, i);
    assert SameBase(Inserted(rows, e, d)[p], (rows + [e])[p]) && SameBase(Inserted(rows, e, d)[i], (rows + [e])[i]) by {
      InsertedBase(rows, e, d);
    }
    if i == |rows| {
      InsertedNewRow(rows, e, d, p);
    } else {
      InsertedSuccessor(rows, e, d, i);
    }
  }

  /** Repairing two rows keeps every derived field of the table exact. */
  lemma InsertedExact(rows: seq<Event>, e: Event, d: Option<OperationalStatus>, declared: seq<Option<OperationalStatus>>)
    requires UniqueIds(rows + [e])
    requires ElapsedExact(rows) && StatusExact(rows, declared)
    ensures ElapsedExact(Inserted(rows, e, d)) && StatusExact(Inserted(rows, e, d), declared + [d])
  {
    var r := Inserted(rows, e, d);
    forall i | IsFirst(r, i)
      ensures r[i].elapsedMinutes == None && r[i].previousStatus == (declared + [d])[i]
    {
      if i < |rows| { FirstUntouched(rows, e, d, i); } else { NewFirst(rows, e, d); }
    }
    forall p, i | Adjacent(r, p, i)
      ensures r[i].elapsedMinutes == Some(GapMinutes(r[p], r[i]))
      ensures r[i].previousStatus == if p > i then Some(r[p].status) else Some((declared + [d])[i].GetOr(r[p].status))
    {
      if p < |rows| && i < |rows| {
        InsertedOldPair(rows, e, d, declared, p, i);
      } else {
        InsertedNewPair(rows, e, d, declared, p, i);
      }
      assert PairExact(r, declared + [d], p, i);
    }
  }

  // ------------------------------------------------------------------- runs

  /** One attempt to register, with the fault table it sees, and the id and time the database hands out. */
  datatype Call = Call(input: RegisterInput, faults: seq<Fault>, id: int, createdAt: int)

  predicate Accepts(rows: seq<Event>, c: Call) {
    Register(rows, c.faults, c.input, c.id, c.createdAt).Registered?
  }

  /** The table after a sequence of calls from the empty table; a rejected call changes nothing. */
  function Run(calls: seq<Call>): seq<Event> {
    if calls == [] then []
    else
      var rows := Run(calls[..|calls| - 1]);
      var c := calls[|calls| - 1];
      match Register(rows, c.faults, c.input, c.id, c.createdAt)
      case Registered(events) => events
      case Rejected(_) => rows
  }

  /** The calls that created the rows of `Run(calls)`, in the order of the rows. */
  ghost function Accepted(calls: seq<Call>): seq<Call> {
    if calls == [] then []
    else
      var c := calls[|calls| - 1];
      Accepted(calls[..|calls| - 1]) + if Accepts(Run(calls[..|calls| - 1]), c) then [c] else []
  }

  ghost function Overrides(calls: seq<Call>): seq<Option<OperationalStatus>> {
    seq(|calls|, i requires 0 <= i < |calls| => calls[i].input.previousStatus)
  }

  /** Row i holds what call i asked for. */
  ghost predicate HoldsCalls(rows: seq<Event>, calls: seq<Call>) {
    |calls| == |rows|
    && forall i :: 0 <= i < |rows| ==>
         SameBase(rows[i], InitialEvent(calls[i].input, calls[i].id, calls[i].createdAt))
  }

  lemma InsertedHoldsCalls(rows: seq<Event>, calls: seq<Call>, c: Call)
    requires HoldsCalls(rows, calls)
    ensures HoldsCalls(Inserted(rows, InitialEvent(c.input, c.id, c.createdAt), c.input.previousStatus), calls + [c])
  {
    InsertedBase(rows, InitialEvent(c.input, c.id, c.createdAt), c.input.previousStatus);
  }

  lemma {:induction false} RunHoldsAccepted(calls: seq<Call>)
    ensures HoldsCalls(Run(calls), Accepted(calls))
  {
    if calls != [] {
      var rest := calls[..|calls| - 1];
      var c := calls[|calls| - 1];
      RunHoldsAccepted(rest);
      if Accepts(Run(rest), c) {
        InsertedHoldsCalls(Run(rest), Accepted(rest), c);
      } else {
        assert Accepted(rest) + [] == Accepted(rest);
      }
    }
  }

  lemma {:induction false} AcceptedAmongCalls(calls: seq<Call>)
    ensures forall c :: c in Accepted(calls) ==> c in calls
  {
    if calls != [] {
      AcceptedAmongCalls(calls[..|calls| - 1]);
    }
  }

  /** Row i holds what accepted call i asked for. */
  lemma RunBase(calls: seq<Call>)
    ensures |Accepted(calls)| == |Run(calls)|
    ensures forall i :: 0 <= i < |Run(calls)| ==>
              var c := Accepted(calls)[i];
              c in calls && SameBase(Run(calls)[i], InitialEvent(c.input, c.id, c.createdAt))
  {
    RunHoldsAccepted(calls);
    AcceptedAmongCalls(calls);
  }

  lemma AcceptedIsFresh(rows: seq<Event>, c: Call)
    requires UniqueIds(rows) && Accepts(rows, c)
    ensures UniqueIds(rows + [InitialEvent(c.input, c.id, c.createdAt)])
  {
  }

  /** One accepted call more keeps ids unique and every derived field exact. */
  lemma AcceptedKeepsExact(rows: seq<Event>, declared: seq<Option<OperationalStatus>>, c: Call)
    requires UniqueIds(rows) && ElapsedExact(rows) && StatusExact(rows, declared) && Accepts(rows, c)
    ensures var r := Inserted(rows, InitialEvent(c.input, c.id, c.createdAt), c.input.previousStatus);
            UniqueIds(r) && ElapsedExact(r) && StatusExact(r, declared + [c.input.previousStatus])
  {
    var e := InitialEvent(c.input, c.id, c.createdAt);
    AcceptedIsFresh(rows, c);
    InsertedExact(rows, e, c.input.previousStatus, declared);
    InsertedBase(rows, e, c.input.previousStatus);
    assert forall i :: 0 <= i <= |rows| ==> Inserted(rows, e, c.input.previousStatus)[i].id == (rows + [e])[i].id;
  }

  /** After any calls, in any order of time, every elapsed time and previous status is exact. */
  lemma {:induction false} RunExact(calls: seq<Call>)
    ensures UniqueIds(Run(calls)) && ElapsedExact(Run(calls))
    ensures StatusExact(Run(calls), Overrides(Accepted(calls)))
  {
    if calls != [] {
      var rest := calls[..|calls| - 1];
      var c := calls[|calls| - 1];
      RunExact(rest);
      if Accepts(Run(rest), c) {
        AcceptedKeepsExact(Run(rest), Overrides(Accepted(rest)), c);
        assert Overrides(Accepted(calls)) == Overrides(Accepted(rest)) + [c.input.previousStatus];
      } else {
        assert Accepted(calls) == Accepted(rest);
      }
    }
  }

  /** The simple form: every elapsed time computed again from the whole table. */
  function Recomputed(rows: seq<Event>): (r: seq<Event>)
    ensures |r| == |rows|
  {
    seq(|rows|, i requires 0 <= i < |rows| =>
      var p := PrecedingRow(rows, rows[i]);
      rows[i].(elapsedMinutes := if p.None? then None else Some(GapMinutes(rows[p.value], rows[i]))))
  }

  lemma PrecedingIsAdjacent(rows: seq<Event>, i: nat)
    requires i < |rows| && PrecedingRow(rows, rows[i]).Some?
    ensures Adjacent(rows, PrecedingRow(rows, rows[i]).value, i)
  {
  }

  lemma NotFirstHasPredecessor(rows: seq<Event>, i: nat) returns (p: nat)
    requires i < |rows| && !IsFirst(rows, i)
    ensures Adjacent(rows, p, i)
  {
    p := PrecedingRow(rows, rows[i]).value;
    PrecedingIsAdjacent(rows, i);
  }

  /** Two repairs per registration leave exactly the table a full recomputation would. */
  lemma RepairEqualsRecompute(calls: seq<Call>)
    ensures Run(calls) == Recomputed(Run(calls))
  {
    RunExact(calls);
    var rows := Run(calls);
    forall i | 0 <= i < |rows|
      ensures rows[i] == Recomputed(rows)[i]
    {
      var p := PrecedingRow(rows, rows[i]);
      if p.None? {
        assert IsFirst(rows, i);
      } else {
        PrecedingIsAdjacent(rows, i);
      }
    }
  }

  ghost predicate NoOverrides(calls: seq<Call>) {
    forall c :: c in Accepted(calls) ==> c.input.previousStatus == None
  }

  /** Without overrides the statuses form one chain. */
  lemma NoOverridesChain(calls: seq<Call>, p: nat, i: nat)
    requires NoOverrides(calls)
    requires Adjacent(Run(calls), p, i)
    ensures Run(calls)[i].previousStatus == Some(Run(calls)[p].status)
  {
    RunExact(calls);
    RunBase(calls);
    assert Accepted(calls)[i] in Accepted(calls);
  }

  /** A report of origin MANUAL that names its availability cell and no fault report. */
  predicate ManualReport(input: RegisterInput) {
    input.source.GetOr(Manual) == Manual && input.availabilityId.Some? && input.faultReportId.None?
  }

  lemma FreshManualAccepted(rows: seq<Event>, c: Call)
    requires ManualReport(c.input) && forall q :: 0 <= q < |rows| ==> rows[q].id != c.id
    ensures Accepts(rows, c)
  {
  }

  /** While all calls so far were accepted, the table's ids are the calls' ids. */
  lemma IdsAreCalls(rest: seq<Call>, q: nat)
    requires Accepted(rest) == rest && q < |Run(rest)|
    ensures |rest| == |Run(rest)| && Run(rest)[q].id == rest[q].id
  {
    RunHoldsAccepted(rest);
    assert SameBase(Run(rest)[q], InitialEvent(rest[q].input, rest[q].id, rest[q].createdAt));
  }

  lemma NextIsAccepted(rest: seq<Call>, c: Call)
    requires Accepted(rest) == rest && ManualReport(c.input)
    requires forall i :: 0 <= i < |rest| ==> rest[i].id != c.id
    ensures Accepts(Run(rest), c)
  {
    forall q | 0 <= q < |Run(rest)|
      ensures Run(rest)[q].id != c.id
    {
      IdsAreCalls(rest, q);
    }
    FreshManualAccepted(Run(rest), c);
  }

  /** Manual reports with fresh ids are never rejected, whatever was registered before. */
  lemma {:induction false} ManualCallsAccepted(calls: seq<Call>)
    requires forall c :: c in calls ==> ManualReport(c.input)
    requires forall i, j :: 0 <= i < j < |calls| ==> calls[i].id != calls[j].id
    ensures Accepted(calls) == calls
  {
    if calls != [] {
      var last := calls[|calls| - 1];
      var rest := calls[..|calls| - 1];
      ManualCallsAccepted(rest);
      NextIsAccepted(rest, last);
      assert Accepted(calls) == Accepted(rest) + [last];
      assert calls == rest + [last];
    }
  }

  /** A call for one equipment never touches the rows of another. */
  lemma OthersUntouched(rows: seq<Event>, c: Call, i: nat)
    requires i < |rows| && !(rows[i].tenant == c.input.tenant && rows[i].equipmentId == c.input.equipmentId)
    ensures match Register(rows, c.faults, c.input, c.id, c.createdAt)
            case Registered(events) => i < |events| && events[i] == rows[i]
            case Rejected(_) => true
  {
  }

  // ------------------------------------------------------ in milliseconds and keys

  /** Event a comes before event b: by moment, then by creation, then by id. */
  ghost predicate Earlier(a: Event, b: Event) {
    a.eventAt < b.eventAt
    || (a.eventAt == b.eventAt && (a.createdAt < b.createdAt || (a.createdAt == b.createdAt && a.id < b.id)))
  }

  ghost predicate OneTimeline(a: Event, b: Event) {
    a.tenant == b.tenant && a.equipmentId == b.equipmentId
  }

  /** Row p is the last event of the same tenant and equipment before row i. */
  ghost predicate DirectlyBefore(rows: seq<Event>, p: int, i: int) {
    && 0 <= p < |rows| && 0 <= i < |rows| && OneTimeline(rows[p], rows[i]) && Earlier(rows[p], rows[i])
    && forall q :: 0 <= q < |rows| && OneTimeline(rows[q], rows[i]) && Earlier(rows[p], rows[q]) ==>
                     !Earlier(rows[q], rows[i])
  }

  lemma DirectlyBeforeIsAdjacent(rows: seq<Event>, p: int, i: int)
    requires DirectlyBefore(rows, p, i)
    ensures Adjacent(rows, p, i)
  {
    forall q | 0 <= q < |rows| && SameTimeline(rows[q], rows[i]) && Before(rows[p], rows[q])
      ensures !Before(rows[q], rows[i])
    {
      assert OneTimeline(rows[q], rows[i]) && Earlier(rows[p], rows[q]);
    }
  }

  lemma GapInMilliseconds(p: Event, a: Event)
    requires p.eventAt <= a.eventAt
    ensures GapMinutes(p, a) >= 0
    ensures 60_000 * GapMinutes(p, a) <= a.eventAt - p.eventAt < 60_000 * (GapMinutes(p, a) + 1)
  {
  }

  /** The elapsed time of an event is the number of whole minutes, of 60_000 ms each, since the one directly before. */
  lemma ElapsedInMilliseconds(calls: seq<Call>, p: int, i: int)
    requires DirectlyBefore(Run(calls), p, i)
    ensures var rows := Run(calls);
            && rows[i].elapsedMinutes.Some?
            && var m := rows[i].elapsedMinutes.value;
               m >= 0 && 60_000 * m <= rows[i].eventAt - rows[p].eventAt < 60_000 * (m + 1)
  {
    DirectlyBeforeIsAdjacent(Run(calls), p, i);
    AdjacentGap(calls, p, i);
    GapInMilliseconds(Run(calls)[p], Run(calls)[i]);
  }

  /** Which call is registered, and why another one is not; the reasons are checked in this order. */
  lemma RegisteredIff(rows: seq<Event>, faults: seq<Fault>, input: RegisterInput, id: int, createdAt: int)
    ensures var r := Register(rows, faults, input, id, createdAt);
            var source := if input.source.None? then Manual else input.source.value;
            var taken := exists q :: 0 <= q < |rows| && rows[q].id == id;
            match source
            case Ot => r == Rejected(SourceNotSupported)
            case FromFault =>
              if input.faultReportId == None then r == Rejected(FaultReportIdRequired)
              else if input.availabilityId != None then r == Rejected(AvailabilityIdNotAllowed)
              else
                var f := input.faultReportId.value;
                if f >= |faults| || faults[f].tenant != input.tenant || faults[f].equipmentId != input.equipmentId
                then r == Rejected(FaultReportMismatch)
                else if taken || exists q :: 0 <= q < |rows| && rows[q].faultReportId == Some(f)
                then r == Rejected(UniqueViolation)
                else r.Registered?
            case _ =>
              if input.availabilityId == None then r == Rejected(AvailabilityIdRequired)
              else if input.faultReportId != None then r == Rejected(FaultReportIdNotAllowed)
              else if taken then r == Rejected(UniqueViolation)
              else r.Registered?
  {
  }

  /** A registered row repeats its request and is MANUAL unless another origin is named. */
  lemma RegisteredRow(rows: seq<Event>, faults: seq<Fault>, input: RegisterInput, id: int, createdAt: int)
    requires Register(rows, faults, input, id, createdAt).Registered?
    ensures var events := Register(rows, faults, input, id, createdAt).events;
            && |events| == |rows| + 1
            && var e := events[|rows|];
               && e.id == id && e.createdAt == createdAt && e.eventAt == input.eventAt
               && e.tenant == input.tenant && e.equipmentId == input.equipmentId && e.status == input.status
               && e.availabilityId == input.availabilityId && e.faultReportId == input.faultReportId
               && e.reportedBy == input.reportedBy && e.meterReading == input.meterReading && e.comments == input.comments
               && e.source == (if input.source.None? then Manual else input.source.value)
  {
    InsertedBase(rows, InitialEvent(input, id, createdAt), input.previousStatus);
  }

  // ------------------------------------------------------- order independence

  /** What the accepted calls asked for, without the ids and creation times they happened to get. */
  ghost function Inputs(calls: seq<Call>): seq<RegisterInput> {
    seq(|Accepted(calls)|, i requires 0 <= i < |Accepted(calls)| => Accepted(calls)[i].input)
  }

  ghost predicate SameMoment(a: RegisterInput, b: RegisterInput) {
    a.tenant == b.tenant && a.equipmentId == b.equipmentId && a.eventAt == b.eventAt
  }

  /** No two calls of one timeline name the same moment. */
  ghost predicate DistinctMoments(inputs: seq<RegisterInput>) {
    forall i, j :: 0 <= i < j < |inputs| ==> !SameMoment(inputs[i], inputs[j])
  }

  /** Every row of one run has a counterpart in the other. */
  lemma Counterpart(calls: seq<Call>, other: seq<Call>, i: nat) returns (j: nat)
    requires multiset(Inputs(calls)) == multiset(Inputs(other))
    requires i < |Run(calls)|
    ensures j < |Run(other)|
    ensures SameTimeline(Run(calls)[i], Run(other)[j]) && Run(calls)[i].eventAt == Run(other)[j].eventAt
    ensures Run(calls)[i].status == Run(other)[j].status
  {
    RunBase(calls);
    RunBase(other);
    assert Inputs(calls)[i] in multiset(Inputs(calls));
    assert Inputs(calls)[i] in Inputs(other);
    j :| 0 <= j < |Inputs(other)| && Inputs(other)[j] == Inputs(calls)[i];
  }

  /** With distinct moments the order of a timeline is the order of eventAt alone. */
  lemma MomentsOrder(calls: seq<Call>, i: nat, j: nat)
    requires DistinctMoments(Inputs(calls))
    requires i < |Run(calls)| && j < |Run(calls)| && SameTimeline(Run(calls)[i], Run(calls)[j])
    ensures Before(Run(calls)[i], Run(calls)[j]) <==> Run(calls)[i].eventAt < Run(calls)[j].eventAt
    ensures Run(calls)[i].eventAt == Run(calls)[j].eventAt ==> i == j
  {
    RunBase(calls);
    if i < j {
      assert !SameMoment(Inputs(calls)[i], Inputs(calls)[j]);
    } else if j < i {
      assert !SameMoment(Inputs(calls)[j], Inputs(calls)[i]);
    }
  }

  /** Both runs accepted the same requests, no two for one moment. */
  ghost predicate SameRequests(calls: seq<Call>, other: seq<Call>) {
    multiset(Inputs(calls)) == multiset(Inputs(other)) && DistinctMoments(Inputs(calls)) && DistinctMoments(Inputs(other))
  }

  /** Row i of one run and row j of the other are the event of the same moment. */
  ghost predicate SameEvent(calls: seq<Call>, other: seq<Call>, i: nat, j: nat) {
    i < |Run(calls)| && j < |Run(other)|
    && SameTimeline(Run(calls)[i], Run(other)[j]) && Run(calls)[i].eventAt == Run(other)[j].eventAt
  }

  lemma FirstInBoth(calls: seq<Call>, other: seq<Call>, i: nat, j: nat)
    requires SameRequests(calls, other) && SameEvent(calls, other, i, j) && IsFirst(Run(calls), i)
    ensures IsFirst(Run(other), j)
  {
    forall q | 0 <= q < |Run(other)| && SameTimeline(Run(other)[q], Run(other)[j])
      ensures !Before(Run(other)[q], Run(other)[j])
    {
      var k := Counterpart(other, calls, q);
      MomentsOrder(calls, k, i);
      MomentsOrder(other, q, j);
    }
  }

  lemma AdjacentInBoth(calls: seq<Call>, other: seq<Call>, p: nat, i: nat, j: nat) returns (q: nat)
    requires SameRequests(calls, other) && SameEvent(calls, other, i, j) && Adjacent(Run(calls), p, i)
    ensures Adjacent(Run(other), q, j)
    ensures Run(calls)[p].eventAt == Run(other)[q].eventAt && Run(calls)[p].status == Run(other)[q].status
  {
    q := Counterpart(calls, other, p);
    MomentsOrder(calls, p, i);
    MomentsOrder(other, q, j);
    forall m | 0 <= m < |Run(other)| && SameTimeline(Run(other)[m], Run(other)[j])
               && Before(Run(other)[q], Run(other)[m])
      ensures !Before(Run(other)[m], Run(other)[j])
    {
      var k := Counterpart(other, calls, m);
      MomentsOrder(calls, p, k);
      MomentsOrder(calls, k, i);
      MomentsOrder(other, q, m);
      MomentsOrder(other, m, j);
    }
  }

  /** The first event of a timeline has neither elapsed time nor, without override, a previous status. */
  lemma FirstHasNothing(calls: seq<Call>, i: nat)
    requires NoOverrides(calls) && IsFirst(Run(calls), i)
    ensures Run(calls)[i].elapsedMinutes == None && Run(calls)[i].previousStatus == None
  {
    RunExact(calls);
    RunBase(calls);
    assert Accepted(calls)[i] in Accepted(calls);
  }

  lemma AdjacentGap(calls: seq<Call>, p: nat, i: nat)
    requires Adjacent(Run(calls), p, i)
    ensures Run(calls)[i].elapsedMinutes == Some(GapMinutes(Run(calls)[p], Run(calls)[i]))
  {
    RunExact(calls);
  }

  lemma FirstsAgree(calls: seq<Call>, other: seq<Call>, i: nat, j: nat)
    requires SameRequests(calls, other) && NoOverrides(calls) && NoOverrides(other)
    requires SameEvent(calls, other, i, j) && IsFirst(Run(calls), i)
    ensures Run(calls)[i].elapsedMinutes == Run(other)[j].elapsedMinutes
    ensures Run(calls)[i].previousStatus == Run(other)[j].previousStatus
  {
    FirstInBoth(calls, other, i, j);
    FirstHasNothing(calls, i);
    FirstHasNothing(other, j);
  }

  /** Event `a` states its gap to `p` and repeats its status. */
  ghost predicate FollowsNeighbour(p: Event, a: Event) {
    a.elapsedMinutes == Some(GapMinutes(p, a)) && a.previousStatus == Some(p.status)
  }

  lemma NeighbourFacts(calls: seq<Call>, p: nat, i: nat)
    requires NoOverrides(calls) && Adjacent(Run(calls), p, i)
    ensures FollowsNeighbour(Run(calls)[p], Run(calls)[i])
  {
    NoOverridesChain(calls, p, i);
    AdjacentGap(calls, p, i);
  }

  /** Two events at one moment, with neighbours of one moment and status, have the same derived fields. */
  lemma NeighboursAgree(p: Event, a: Event, q: Event, b: Event)
    requires FollowsNeighbour(p, a) && FollowsNeighbour(q, b)
    requires a.eventAt == b.eventAt && p.eventAt == q.eventAt && p.status == q.status
    ensures a.elapsedMinutes == b.elapsedMinutes && a.previousStatus == b.previousStatus
  {
  }

  /** The neighbours of one event in both runs. */
  lemma PairedNeighbours(calls: seq<Call>, other: seq<Call>, i: nat, j: nat) returns (p: nat, q: nat)
    requires SameRequests(calls, other) && NoOverrides(calls) && NoOverrides(other)
    requires SameEvent(calls, other, i, j) && !IsFirst(Run(calls), i)
    ensures p < |Run(calls)| && q < |Run(other)|
    ensures Run(calls)[p].eventAt == Run(other)[q].eventAt && Run(calls)[p].status == Run(other)[q].status
    ensures FollowsNeighbour(Run(calls)[p], Run(calls)[i]) && FollowsNeighbour(Run(other)[q], Run(other)[j])
  {
    p := NotFirstHasPredecessor(Run(calls), i);
    q := AdjacentInBoth(calls, other, p, i, j);
    NeighbourFacts(calls, p, i);
    NeighbourFacts(other, q, j);
  }

  /**
   * The order in which the same reports arrive does not matter: whatever ids and creation
   * times the two runs hand out, the event of a given moment ends with the same fields.
   */
  lemma OrderIndependence(calls: seq<Call>, other: seq<Call>, i: nat, j: nat)
    requires SameRequests(calls, other) && NoOverrides(calls) && NoOverrides(other)
    requires SameEvent(calls, other, i, j)
    ensures Run(calls)[i].elapsedMinutes == Run(other)[j].elapsedMinutes
    ensures Run(calls)[i].previousStatus == Run(other)[j].previousStatus
  {
    if IsFirst(Run(calls), i) {
      FirstsAgree(calls, other, i, j);
    } else {
      var p, q := PairedNeighbours(calls, other, i, j);
      NeighboursAgree(Run(calls)[p], Run(calls)[i], Run(other)[q], Run(other)[j]);
    }
  }

  // ------------------------------------------------------------ the sorted view

  function InsertOrdered(s: seq<Event>, e: Event): (r: seq<Event>)
    ensures |r| == |s| + 1
    ensures forall x :: x in r <==> x in s || x == e
  {
    if s == [] || Before(e, s[0]) then [e] + s
    else [s[0]] + InsertOrdered(s[1..], e)
  }

  predicate InRange(e: Event, dateFrom: Option<int>, dateTo: Option<int>) {
    (dateFrom.None? || dateFrom.value <= e.eventAt) && (dateTo.None? || e.eventAt <= dateTo.value)
  }

  /** `findTimeline`: the matching rows, ordered by (eventAt, createdAt, id) ascending. */
  function FindTimeline(rows: seq<Event>, tenant: TenantId, equipmentId: EquipmentId,
                        dateFrom: Option<int>, dateTo: Option<int>): (r: seq<Event>)
    ensures forall x :: x in r <==> x in rows && x.tenant == tenant && x.equipmentId == equipmentId
                                    && (dateFrom == None || dateFrom.value <= x.eventAt)
                                    && (dateTo == None || x.eventAt <= dateTo.value)
  {
    if rows == [] then []
    else
      var last := rows[|rows| - 1];
      var r := FindTimeline(rows[..|rows| - 1], tenant, equipmentId, dateFrom, dateTo);
      if last.tenant == tenant && last.equipmentId == equipmentId && InRange(last, dateFrom, dateTo)
      then InsertOrdered(r, last) else r
  }

  ghost predicate Ordered(s: seq<Event>) {
    forall i, j :: 0 <= i < j < |s| ==> Before(s[i], s[j])
  }

  lemma InsertKeepsOrder(s: seq<Event>, e: Event)
    requires Ordered(s) && forall x :: x in s ==> x.id != e.id
    ensures Ordered(InsertOrdered(s, e))
  {
    if s != [] && !Before(e, s[0]) {
      assert s[0] in s;
      InsertKeepsOrder(s[1..], e);
      assert forall x :: x in s[1..] ==> Before(s[0], x);
    }
  }

  lemma {:induction false} TimelineOrdered(rows: seq<Event>, tenant: TenantId, equipmentId: EquipmentId,
                                           dateFrom: Option<int>, dateTo: Option<int>)
    requires UniqueIds(rows)
    ensures Ordered(FindTimeline(rows, tenant, equipmentId, dateFrom, dateTo))
  {
    if rows != [] {
      var rest := rows[..|rows| - 1];
      TimelineOrdered(rest, tenant, equipmentId, dateFrom, dateTo);
      var r := FindTimeline(rest, tenant, equipmentId, dateFrom, dateTo);
      forall x | x in r
        ensures x.id != rows[|rows| - 1].id
      {
        assert x in rest;
      }
      InsertKeepsOrder(r, rows[|rows| - 1]);
    }
  }

  /** The gap from the row above row k of a listing; none for the first row. */
  function GapAt(t: seq<Event>, k: nat): Option<int>
    requires k < |t|
  {
    if k == 0 then None else Some(GapMinutes(t[k - 1], t[k]))
  }

  /** The listing holds every row of the timeline of row i. */
  ghost predicate Complete(rows: seq<Event>, t: seq<Event>, i: int) {
    0 <= i < |rows| && forall q :: 0 <= q < |rows| && SameTimeline(rows[q], rows[i]) ==> rows[q] in t
  }

  /** Row i of the table is row k of the listing, and row p the one above it, if there is one. */
  ghost predicate ListedAt(rows: seq<Event>, t: seq<Event>, k: int, i: int, p: int) {
    && 0 <= k < |t| && Complete(rows, t, i) && rows[i] == t[k]
    && (k > 0 ==> 0 <= p < |rows| && rows[p] == t[k - 1] && SameTimeline(rows[p], rows[i]))
  }

  lemma ListingNeighbours(rows: seq<Event>, t: seq<Event>, p: nat, i: nat, k: nat)
    requires Ordered(t) && k > 0 && ListedAt(rows, t, k, i, p)
    ensures Adjacent(rows, p, i)
  {
    forall q | 0 <= q < |rows| && SameTimeline(rows[q], rows[i]) && Before(rows[p], rows[q])
      ensures !Before(rows[q], rows[i])
    {
      var m :| 0 <= m < |t| && t[m] == rows[q];
      assert m >= k;
    }
  }

  lemma ListingFirst(rows: seq<Event>, t: seq<Event>, i: nat, p: int)
    requires Ordered(t) && ListedAt(rows, t, 0, i, p)
    ensures IsFirst(rows, i)
  {
  }

  lemma ListingGap(rows: seq<Event>, t: seq<Event>, p: nat, i: nat, k: nat)
    requires ElapsedExact(rows) && Ordered(t) && ListedAt(rows, t, k, i, p)
    ensures t[k].elapsedMinutes == GapAt(t, k)
  {
    if k == 0 {
      ListingFirst(rows, t, i, p);
    } else {
      ListingNeighbours(rows, t, p, i, k);
    }
  }

  lemma ListingRow(rows: seq<Event>, tenant: TenantId, equipmentId: EquipmentId, k: nat) returns (i: nat)
    requires k < |FindTimeline(rows, tenant, equipmentId, None, None)|
    ensures i < |rows| && rows[i] == FindTimeline(rows, tenant, equipmentId, None, None)[k]
    ensures rows[i].tenant == tenant && rows[i].equipmentId == equipmentId
  {
    var x := FindTimeline(rows, tenant, equipmentId, None, None)[k];
    assert x in rows;
    i :| 0 <= i < |rows| && rows[i] == x;
  }

  lemma ListingComplete(rows: seq<Event>, tenant: TenantId, equipmentId: EquipmentId, i: nat)
    requires i < |rows| && rows[i].tenant == tenant && rows[i].equipmentId == equipmentId
    ensures Complete(rows, FindTimeline(rows, tenant, equipmentId, None, None), i)
  {
    forall q | 0 <= q < |rows| && SameTimeline(rows[q], rows[i])
      ensures rows[q] in FindTimeline(rows, tenant, equipmentId, None, None)
    {
      assert rows[q] in rows && InRange(rows[q], None, None);
    }
  }

  lemma ListingPlaces(rows: seq<Event>, tenant: TenantId, equipmentId: EquipmentId, k: nat) returns (i: nat, p: nat)
    requires k < |FindTimeline(rows, tenant, equipmentId, None, None)|
    ensures ListedAt(rows, FindTimeline(rows, tenant, equipmentId, None, None), k, i, p)
  {
    i := ListingRow(rows, tenant, equipmentId, k);
    ListingComplete(rows, tenant, equipmentId, i);
    p := 0;
    if k > 0 {
      p := ListingRow(rows, tenant, equipmentId, k - 1);
    }
  }

  /** In the full listing of a table with exact elapsed times each row states its gap to the row above it. */
  lemma ListingOfExact(rows: seq<Event>, tenant: TenantId, equipmentId: EquipmentId, k: nat)
    requires UniqueIds(rows) && ElapsedExact(rows) && k < |FindTimeline(rows, tenant, equipmentId, None, None)|
    ensures var t := FindTimeline(rows, tenant, equipmentId, None, None);
            t[k].elapsedMinutes == GapAt(t, k)
  {
    TimelineOrdered(rows, tenant, equipmentId, None, None);
    var i, p := ListingPlaces(rows, tenant, equipmentId, k);
    ListingGap(rows, FindTimeline(rows, tenant, equipmentId, None, None), p, i, k);
  }

  /** In the full listing of a reachable timeline each row states its gap to the row above it. */
  lemma ListingStatesGaps(calls: seq<Call>, tenant: TenantId, equipmentId: EquipmentId, k: nat)
    requires k < |FindTimeline(Run(calls), tenant, equipmentId, None, None)|
    ensures var t := FindTimeline(Run(calls), tenant, equipmentId, None, None);
            t[k].elapsedMinutes == GapAt(t, k)
  {
    RunExact(calls);
    ListingOfExact(Run(calls), tenant, equipmentId, k);
  }

  function SumElapsed(t: seq<Event>): int {
    if t == [] then 0 else SumElapsed(t[..|t| - 1]) + t[|t| - 1].elapsedMinutes.GetOr(0)
  }

  ghost predicate StatesGaps(t: seq<Event>) {
    forall k :: 0 <= k < |t| ==> t[k].elapsedMinutes == GapAt(t, k)
  }

  lemma {:induction false} SumOfGaps(t: seq<Event>)
    requires t != [] && Ordered(t) && StatesGaps(t)
    ensures var span := t[|t| - 1].eventAt - t[0].eventAt;
            60_000 * SumElapsed(t) <= span <= 60_000 * SumElapsed(t) + (|t| - 1) * 59_999
  {
    var rest := t[..|t| - 1];
    if |t| == 1 {
      assert rest == [] && t[0].elapsedMinutes == None;
    } else {
      forall k | 0 <= k < |rest|
        ensures rest[k].elapsedMinutes == GapAt(rest, k)
      {
        assert rest[k] == t[k];
      }
      SumOfGaps(rest);
      assert Before(t[|t| - 2], t[|t| - 1]);
      assert t[|t| - 1].elapsedMinutes == Some(GapMinutes(t[|t| - 2], t[|t| - 1]));
    }
  }

  lemma ListingInOrder(calls: seq<Call>, tenant: TenantId, equipmentId: EquipmentId)
    ensures Ordered(FindTimeline(Run(calls), tenant, equipmentId, None, None))
    ensures StatesGaps(FindTimeline(Run(calls), tenant, equipmentId, None, None))
  {
    var t := FindTimeline(Run(calls), tenant, equipmentId, None, None);
    RunExact(calls);
    TimelineOrdered(Run(calls), tenant, equipmentId, None, None);
    forall k | 0 <= k < |t|
      ensures t[k].elapsedMinutes == GapAt(t, k)
    {
      ListingStatesGaps(calls, tenant, equipmentId, k);
    }
  }

  lemma WholeMinutesBetween(sum: int, span: int, n: nat)
    requires n >= 1 && 60_000 * sum <= span <= 60_000 * sum + (n - 1) * 59_999
    ensures sum <= span / 60_000 <= sum + Max(0, n - 2)
  {
  }

  /**
   * The elapsed minutes of a reachable timeline never add up to more than the whole minutes of
   * 60_000 ms between its ends, each gap loses less than one, and rounding loses at most n - 2.
   */
  lemma ElapsedSumBound(calls: seq<Call>, tenant: TenantId, equipmentId: EquipmentId)
    requires FindTimeline(Run(calls), tenant, equipmentId, None, None) != []
    ensures var t := FindTimeline(Run(calls), tenant, equipmentId, None, None);
            var span := t[|t| - 1].eventAt - t[0].eventAt;
            && 60_000 * SumElapsed(t) <= span <= 60_000 * SumElapsed(t) + (|t| - 1) * 59_999
            && SumElapsed(t) <= span / 60_000 <= SumElapsed(t) + Max(0, |t| - 2)
  {
    ListingInOrder(calls, tenant, equipmentId);
    var t := FindTimeline(Run(calls), tenant, equipmentId, None, None);
    SumOfGaps(t);
    WholeMinutesBetween(SumElapsed(t), t[|t| - 1].eventAt - t[0].eventAt, |t|);
  }
}

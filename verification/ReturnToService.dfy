/** The way back: which OPERATIONAL reports are accepted after a stop, and which are rejected. */
module ReturnToService {
  import opened Common
  import opened Tables
  import opened OperationalBlockers
  import opened Orchestrator
  import opened AvailabilityReports
  import opened OperationalSteps
  import opened StopTransitions
  import opened PreviousReport

  /** Nothing but a cause can stand in the way: own equipment, a fresh event id, and for `create` a free cell. */
  ghost predicate Unhindered(s: State, step: Step)
    requires IsReport(step)
  {
    && Owns(s, step.who.tenant, step.dto.equipmentId)
    && (forall q :: 0 <= q < |s.events| ==> s.events[q].id != step.env.eventId)
    && (step.CreateReport? ==> CellOf(s, step).None?)
  }

  /** What a report that returns to service ends in: back in service, or rejected with the list of causes. */
  ghost predicate ReturnDecided(s: State, tx: Tx<Transition>, t: TenantId, e: EquipmentId, blocked: bool,
                                causes: seq<Blocker>) {
    if blocked then tx == Aborted(ReturnToServiceBlocked(causes))
    else tx.Committed? && e in tx.state.equipment && tx.state.equipment[e].isOperational
  }

  /** `create`: OPERATIONAL after a stop is rejected exactly when a cause is active. */
  lemma CreateReturn(s: State, who: Caller, cfg: OpConfig, dto: ReportDto, env: Env)
    requires var step := CreateReport(who, cfg, dto, env);
             Unhindered(s, step) && ReturnsToService(dto.status, PreviousOf(s, step))
    ensures ReturnDecided(s, AvailabilityReports.Create(s, who, cfg, dto, env), who.tenant, dto.equipmentId,
                          Blocked(s, who.tenant, dto.equipmentId), Blockers(s, who.tenant, dto.equipmentId, None))
  {
    AllowedIffNotBlocked(s, who.tenant, dto.equipmentId);
    if !Blocked(s, who.tenant, dto.equipmentId) {
      FreshCreateCommits(s, who, cfg, dto, env);
      CreateEffect(s, who, cfg, dto, env);
    }
  }

  /** `upsertRow`: the same. */
  lemma UpsertReturn(s: State, who: Caller, cfg: OpConfig, dto: ReportDto, shift: ShiftType, env: Env)
    requires var step := UpsertReport(who, cfg, dto, shift, env);
             Unhindered(s, step) && ReturnsToService(dto.status, PreviousOf(s, step))
    ensures ReturnDecided(s, Upsert(s, who, cfg, dto, shift, env), who.tenant, dto.equipmentId,
                          Blocked(s, who.tenant, dto.equipmentId), Blockers(s, who.tenant, dto.equipmentId, None))
  {
    AllowedIffNotBlocked(s, who.tenant, dto.equipmentId);
    if !Blocked(s, who.tenant, dto.equipmentId) {
      FreshUpsertCommits(s, who, cfg, dto, shift, env);
      UpsertEffect(s, who, cfg, dto, shift, env);
    }
  }

  lemma ReportReturn(s: State, step: Step)
    requires IsReport(step) && Unhindered(s, step) && ReturnsToService(step.dto.status, PreviousOf(s, step))
    ensures var t, e := step.who.tenant, step.dto.equipmentId;
            ReturnDecided(s, ReportTx(s, step), t, e, Blocked(s, t, e), Blockers(s, t, e, None))
  {
    if step.CreateReport? {
      CreateReturn(s, step.who, step.cfg, step.dto, step.env);
    } else {
      UpsertReturn(s, step.who, step.cfg, step.dto, step.shift, step.env);
    }
  }

  /** The same cell reported OPERATIONAL: rejected exactly when a cause is active, otherwise back in service. */
  lemma ReturnAfterStop(s: State, who: Caller, cfg: OpConfig, dto: ReportDto, shift: ShiftType, env: Env)
    requires Owns(s, who.tenant, dto.equipmentId) && dto.status == Operational
    requires var cell := FindCell(s.cells, who.tenant, dto.equipmentId, NormalizeReportDate(dto.reportDate), shift);
             cell.Some? && IsStop(s.cells[cell.value].status)
    requires forall q :: 0 <= q < |s.events| ==> s.events[q].id != env.eventId
    ensures var tx := Upsert(s, who, cfg, dto, shift, env);
            if Blocked(s, who.tenant, dto.equipmentId)
            then tx == Aborted(ReturnToServiceBlocked(Blockers(s, who.tenant, dto.equipmentId, None)))
            else tx.Committed? && tx.state.equipment[dto.equipmentId].isOperational
  {
    UpsertReturn(s, who, cfg, dto, shift, env);
  }

  // --------------------------------------------------------- stops, then a return

  /** The cell whose status a report is measured against. */
  function MeasuredCell(s: State, step: Step): (r: Option<nat>)
    requires IsReport(step)
    ensures r.Some? ==> r.value < |s.cells|
    ensures PreviousOf(s, step) == if r.Some? then Some(s.cells[r.value].status) else None
  {
    if step.UpsertReport? && CellOf(s, step).Some? then CellOf(s, step)
    else PreviousCell(s.cells, step.who.tenant, step.dto.equipmentId, NormalizeReportDate(step.dto.reportDate),
                      ReportShift(step))
  }

  lemma SameCausesSameBlocked(s: State, s': State, t: TenantId, e: EquipmentId)
    requires Blockers(s', t, e, None) == Blockers(s, t, e, None)
    ensures Blocked(s', t, e) <==> Blocked(s, t, e)
  {
    AllowedIffNotBlocked(s, t, e);
    AllowedIffNotBlocked(s', t, e);
  }

  // ------------------------------------------------- every report, after every run

  /** A report that commits was unhindered. */
  lemma CommittedIsUnhindered(s: State, step: Step)
    requires Commits(s, step)
    ensures Unhindered(s, step)
  {
  }

  /** An unhindered report that is no return to service always commits. */
  lemma OtherReportCommits(s: State, step: Step)
    requires IsReport(step) && Unhindered(s, step) && !ReturnsToService(step.dto.status, PreviousOf(s, step))
    ensures Commits(s, step)
  {
    if step.CreateReport? {
      FreshCreateCommits(s, step.who, step.cfg, step.dto, step.env);
    } else {
      FreshUpsertCommits(s, step.who, step.cfg, step.dto, step.shift, step.env);
    }
  }

  /** Every report of either operation: it commits exactly when it is unhindered and no blocked return. */
  lemma AcceptedIff(s: State, step: Step)
    requires IsReport(step)
    ensures Commits(s, step) <==>
            Unhindered(s, step)
            && !(ReturnsToService(step.dto.status, PreviousOf(s, step))
                 && Blocked(s, step.who.tenant, step.dto.equipmentId))
  {
    if Commits(s, step) {
      CommittedIsUnhindered(s, step);
    }
    if Unhindered(s, step) {
      if ReturnsToService(step.dto.status, PreviousOf(s, step)) {
        ReportReturn(s, step);
      } else {
        OtherReportCommits(s, step);
      }
    }
  }

  /**
   * Any run of stop reports, then any unhindered report of the equipment: it commits exactly
   * when it is no return to service, or nothing blocked the equipment before the first stop;
   * a rejection lists the causes of that moment. The equipment is in service afterwards
   * exactly when the committed report is a return.
   */
  lemma AfterStopsAcceptedIff(s: State, stops: seq<Step>, back: Step, t: TenantId, e: EquipmentId)
    requires stops != [] && StopRun(s, stops, t, e)
    requires IsReport(back) && back.who.tenant == t && back.dto.equipmentId == e && Unhindered(Run(s, stops), back)
    ensures var s' := Run(s, stops);
            var tx := ReportTx(s', back);
            var isReturn := ReturnsToService(back.dto.status, PreviousOf(s', back));
            && (tx.Committed? <==> !(isReturn && Blocked(s, t, e)))
            && (tx.Aborted? ==> tx == Aborted(ReturnToServiceBlocked(Blockers(s, t, e, None))))
            && (tx.Committed? ==> e in tx.state.equipment && tx.state.equipment[e].isOperational == isReturn)
  {
    var s' := Run(s, stops);
    RunOfStops(s, stops, t, e);
    SameCausesSameBlocked(s, s', t, e);
    AcceptedIff(s', back);
    if ReturnsToService(back.dto.status, PreviousOf(s', back)) {
      ReportReturn(s', back);
    } else {
      ReportTxEffect(s', back);
    }
  }

  /** OPERATIONAL after a run of stops is accepted exactly when nothing blocked the equipment before the first one. */
  ghost predicate AcceptedIfUnblocked(s: State, stops: seq<Step>, back: Step, t: TenantId, e: EquipmentId)
    requires IsReport(back)
  {
    Commits(Run(s, stops), back) <==> !Blocked(s, t, e)
  }

  /**
   * Exactly when that holds: the equipment was free, or the report is measured against a stop.
   * Otherwise it is accepted although blocked, and leaves the equipment out of service.
   */
  lemma AcceptedIfUnblockedIff(s: State, stops: seq<Step>, back: Step, t: TenantId, e: EquipmentId)
    requires stops != [] && StopRun(s, stops, t, e)
    requires IsReport(back) && back.who.tenant == t && back.dto.equipmentId == e && back.dto.status == Operational
    requires Unhindered(Run(s, stops), back)
    ensures AcceptedIfUnblocked(s, stops, back, t, e) <==>
            var measured := MeasuredCell(Run(s, stops), back);
            !Blocked(s, t, e) || (measured.Some? && IsStop(Run(s, stops).cells[measured.value].status))
  {
    AfterStopsAcceptedIff(s, stops, back, t, e);
  }

  /**
   * In particular any run of stop reports, then OPERATIONAL measured against the cell of the
   * last stop, through either operation: accepted exactly when nothing blocked the equipment
   * before the first stop, and otherwise rejected with the causes of that moment.
   */
  lemma StopsThenOperational(s: State, stops: seq<Step>, back: Step, t: TenantId, e: EquipmentId)
    requires stops != [] && StopRun(s, stops, t, e)
    requires IsReport(back) && back.who.tenant == t && back.dto.equipmentId == e && back.dto.status == Operational
    requires Unhindered(Run(s, stops), back)
    requires MeasuredCell(Run(s, stops), back) == CellOf(Run(s, stops), stops[|stops| - 1])
    ensures ReturnDecided(Run(s, stops), ReportTx(Run(s, stops), back), t, e, Blocked(s, t, e), Blockers(s, t, e, None))
  {
    var n := |stops| - 1;
    assert IsStopReport(stops[n], t, e) && Commits(Run(s, stops[..n]), stops[n]);
    ReportStoresCell(Run(s, stops[..n]), stops[n]);
    AfterStopsAcceptedIff(s, stops, back, t, e);
  }

  /** One stop, then OPERATIONAL measured against its cell. */
  lemma StopThenOperational(s: State, stop: Step, back: Step, t: TenantId, e: EquipmentId)
    requires IsStopReport(stop, t, e) && Commits(s, stop)
    requires IsReport(back) && back.who.tenant == t && back.dto.equipmentId == e && back.dto.status == Operational
    requires Unhindered(Apply(s, stop), back) && MeasuredCell(Apply(s, stop), back) == CellOf(Apply(s, stop), stop)
    ensures ReturnDecided(Apply(s, stop), ReportTx(Apply(s, stop), back), t, e, Blocked(s, t, e), Blockers(s, t, e, None))
  {
    OneStopRun(s, stop, t, e);
    StopsThenOperational(s, [stop], back, t, e);
  }

  lemma OneStopRun(s: State, stop: Step, t: TenantId, e: EquipmentId)
    requires IsStopReport(stop, t, e) && Commits(s, stop)
    ensures StopRun(s, [stop], t, e) && Run(s, [stop]) == Apply(s, stop)
  {
    assert [stop][..0] == [];
    assert Run(s, [stop]) == Apply(Run(s, []), stop);
  }

  // ----------------------------------------------- when the stop's cell is the one

  /** An upsert of the same cell is measured against it. */
  lemma SameCellIsMeasured(s: State, stop: Step, back: Step)
    requires Commits(s, stop) && back.UpsertReport?
    requires back.who.tenant == stop.who.tenant && back.dto.equipmentId == stop.dto.equipmentId
    requires NormalizeReportDate(back.dto.reportDate) == NormalizeReportDate(stop.dto.reportDate)
    requires ReportShift(back) == ReportShift(stop)
    ensures MeasuredCell(Apply(s, stop), back) == CellOf(Apply(s, stop), stop)
  {
    ReportStoresCell(s, stop);
  }

  /** A new report of the night shift is measured against the day shift's cell of its date. */
  lemma NightIsMeasuredByDay(s: State, stop: Step, back: Step)
    requires Commits(s, stop) && IsReport(back)
    requires back.who.tenant == stop.who.tenant && back.dto.equipmentId == stop.dto.equipmentId
    requires NormalizeReportDate(back.dto.reportDate) == NormalizeReportDate(stop.dto.reportDate)
    requires ReportShift(stop) == Day && ReportShift(back) == Night
    requires CellOf(Apply(s, stop), back).None?
    ensures MeasuredCell(Apply(s, stop), back) == CellOf(Apply(s, stop), stop)
  {
    ReportStoresCell(s, stop);
  }

  /** A cell appended for the last date reported so far is the one a later date looks back to. */
  lemma AppendedIsPrevious(cells: seq<Cell>, c: Cell, t: TenantId, e: EquipmentId, date: int, shift: ShiftType)
    requires Own(c, t, e) && c.date < date
    requires forall i :: 0 <= i < |cells| && Own(cells[i], t, e) ==> cells[i].date <= c.date
    ensures FindCell(cells + [c], t, e, c.date, c.shift) == Some(|cells|)
    ensures forall shift' :: FindCell(cells + [c], t, e, date, shift').None?
    ensures PreviousCell(cells + [c], t, e, date, shift) == Some(|cells|)
  {
    var all := cells + [c];
    assert all[|cells|] == c && forall i :: 0 <= i < |cells| ==> all[i] == cells[i];
    forall shift'
      ensures FindCell(all, t, e, date, shift').None?
    {
      assert forall i :: 0 <= i < |all| ==> !CellAt(all[i], t, e, date, shift');
    }
    assert LatestEarlierCell(all, t, e, date) == Some(|cells|);
  }

  /** A new report of a later date is measured against a new cell of the last date reported before it. */
  lemma NextDateIsMeasuredByLast(s: State, stop: Step, back: Step)
    requires Commits(s, stop) && IsReport(back) && CellOf(s, stop).None?
    requires back.who.tenant == stop.who.tenant && back.dto.equipmentId == stop.dto.equipmentId
    requires NormalizeReportDate(stop.dto.reportDate) < NormalizeReportDate(back.dto.reportDate)
    requires forall i :: 0 <= i < |s.cells| && Own(s.cells[i], back.who.tenant, back.dto.equipmentId) ==>
               s.cells[i].date <= NormalizeReportDate(stop.dto.reportDate)
    ensures MeasuredCell(Apply(s, stop), back) == CellOf(Apply(s, stop), stop)
  {
    NewCellAppended(s, stop);
    var c := NewCell(s, stop.who, stop.dto, NormalizeReportDate(stop.dto.reportDate), ReportShift(stop));
    AppendedIsPrevious(s.cells, c, back.who.tenant, back.dto.equipmentId, NormalizeReportDate(back.dto.reportDate),
                       ReportShift(back));
  }

  lemma NewCellAppended(s: State, step: Step)
    requires Commits(s, step) && CellOf(s, step).None?
    ensures Owns(s, step.who.tenant, step.dto.equipmentId)
    ensures Apply(s, step).cells ==
            s.cells + [NewCell(s, step.who, step.dto, NormalizeReportDate(step.dto.reportDate), ReportShift(step))]
  {
    if step.CreateReport? {
      CreateCells(s, step.who, step.cfg, step.dto, step.env);
    } else {
      UpsertCells(s, step.who, step.cfg, step.dto, step.shift, step.env);
    }
  }

  // ------------------------------------------------------------- a late stop report

  /** Out of service since an open order with impact SI, last reported OPERATIONAL on date 5. */
  function BlockedSinceDateFive(): State {
    State(map[7 := Equipment(1, Some(5), false, 0, Hours)], [], [WorkOrder(1, 7, Some(Si), OtOpen)],
          [Cell(1, 7, Some(5), 9, 5 * MS_PER_DAY, Day, Operational, None, None)], [], [], map[], [])
  }

  function ReportOn(day: int, status: OperationalStatus, eventId: int): Step {
    var start := ClockTime(7, 0);
    CreateReport(Caller(1, 9), OpConfig(false, start, start),
                 ReportDto(7, day * MS_PER_DAY, Some(Day), status, None, None), Env(eventId, 0, 0))
  }

  lemma UnusedId(events: seq<Event>) returns (id: int)
    ensures forall q :: 0 <= q < |events| ==> events[q].id != id
  {
    id := 0;
    for n := 0 to |events|
      invariant forall q :: 0 <= q < n ==> events[q].id < id
    {
      id := Max(id, events[n].id + 1);
    }
  }

  lemma MidnightOf(day: int)
    ensures NormalizeReportDate(day * MS_PER_DAY) == day * MS_PER_DAY
  {
  }

  /** The stop for date 3 is stored behind the cell of date 5, so a report for date 6 does not see it. */
  lemma LateStopIsNotMeasured(eventId: int)
    ensures var s, stop := BlockedSinceDateFive(), ReportOn(3, DownFailure, 1);
            Commits(s, stop) && Blocked(s, 1, 7) && Owns(Apply(s, stop), 1, 7)
            && CellOf(Apply(s, stop), ReportOn(6, Operational, eventId)).None?
            && MeasuredCell(Apply(s, stop), ReportOn(6, Operational, eventId)) == Some(0)
            && Apply(s, stop).cells[0].status == Operational
  {
    var s, stop, back := BlockedSinceDateFive(), ReportOn(3, DownFailure, 1), ReportOn(6, Operational, eventId);
    MidnightOf(3);
    MidnightOf(6);
    assert BlockingOrder(s.orders[0], 1, 7);
    assert CellOf(s, stop).None?;
    OtherReportCommits(s, stop);
    ReportTxEffect(s, stop);
    NewCellAppended(s, stop);
    var cells := Apply(s, stop).cells;
    assert cells[0] == s.cells[0] && cells[1].date == 3 * MS_PER_DAY && cells[..1] == s.cells && |cells| == 2;
    assert LatestEarlierCell(cells[..1], 1, 7, 6 * MS_PER_DAY) == Some(0);
    assert LatestEarlierCell(cells, 1, 7, 6 * MS_PER_DAY) == Some(0);
  }

  /** Blocked before the stop, stopped late, and OPERATIONAL accepted all the same. */
  lemma LateStopLetsOperationalPass()
    ensures exists s: State, stop: Step, back: Step ::
              IsStopReport(stop, 1, 7) && Commits(s, stop) && IsReport(back) && back.dto.status == Operational
              && Unhindered(Apply(s, stop), back) && Blocked(s, 1, 7) && Commits(Apply(s, stop), back)
              && !AcceptedIfUnblocked(s, [stop], back, 1, 7)
  {
    var s, stop := BlockedSinceDateFive(), ReportOn(3, DownFailure, 1);
    var id := UnusedId(Apply(s, stop).events);
    var back := ReportOn(6, Operational, id);
    LateStopIsNotMeasured(id);
    OneStopRun(s, stop, 1, 7);
    OtherReportCommits(Apply(s, stop), back);
    assert !AcceptedIfUnblocked(s, [stop], back, 1, 7);
  }

  // --------------------------------------------------------------- the rejections

  predicate TakenId(s: State, id: int) {
    exists q :: 0 <= q < |s.events| && s.events[q].id == id
  }

  /** Why a new report is rejected; the reasons are checked in this order. */
  lemma CreateRejectedFor(s: State, who: Caller, cfg: OpConfig, dto: ReportDto, env: Env)
    ensures var t, e := who.tenant, dto.equipmentId;
            var step := CreateReport(who, cfg, dto, env);
            var own := e in s.equipment && s.equipment[e].tenant == t;
            var blocked := ReturnsToService(dto.status, PreviousOf(s, step)) && Blocked(s, t, e);
            var tx := AvailabilityReports.Create(s, who, cfg, dto, env);
            && (!own ==> tx == Aborted(EquipmentNotFound))
            && (own && blocked ==> tx == Aborted(ReturnToServiceBlocked(Blockers(s, t, e, None))))
            && (own && !blocked && CellOf(s, step).Some? ==> tx == Aborted(DuplicateReport))
            && (own && !blocked && CellOf(s, step).None? && TakenId(s, env.eventId) ==>
                  tx == Aborted(InvalidEvent(UniqueViolation)))
  {
    AllowedIffNotBlocked(s, who.tenant, dto.equipmentId);
  }

  /** Why an upsert is rejected; an existing cell is no reason. */
  lemma UpsertRejectedFor(s: State, who: Caller, cfg: OpConfig, dto: ReportDto, shift: ShiftType, env: Env)
    ensures var t, e := who.tenant, dto.equipmentId;
            var step := UpsertReport(who, cfg, dto, shift, env);
            var own := e in s.equipment && s.equipment[e].tenant == t;
            var blocked := ReturnsToService(dto.status, PreviousOf(s, step)) && Blocked(s, t, e);
            var tx := Upsert(s, who, cfg, dto, shift, env);
            && (!own ==> tx == Aborted(EquipmentNotFound))
            && (own && blocked ==> tx == Aborted(ReturnToServiceBlocked(Blockers(s, t, e, None))))
            && (own && !blocked && TakenId(s, env.eventId) ==> tx == Aborted(InvalidEvent(UniqueViolation)))
  {
    AllowedIffNotBlocked(s, who.tenant, dto.equipmentId);
  }
}

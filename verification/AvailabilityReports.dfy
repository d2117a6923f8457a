/** Availability reports (M2): a new report, and the upsert that batches and imports use row by row. */
module AvailabilityReports {
  import opened Common
  import opened Tables
  import opened OperationalBlockers
  import opened Orchestrator
  import opened MeterSync
  import Timeline = AvailabilityTimeline

  const MS_PER_DAY := 86_400_000

  datatype ClockTime = ClockTime(hours: nat, minutes: nat)
  datatype OpConfig = OpConfig(hasNightShift: bool, dayStart: ClockTime, nightStart: ClockTime)

  datatype Caller = Caller(tenant: TenantId, userId: UserId)

  datatype ReportDto = ReportDto(equipmentId: EquipmentId, reportDate: int, shift: Option<ShiftType>,
                                 status: OperationalStatus, meterReading: Option<int>, comments: Option<string>)

  /** What the environment hands to one transaction: the new event's id and creation time, and the clock. */
  datatype Env = Env(eventId: int, createdAt: int, now: int)

  /** The night shift counts only where the tenant works one; without a shift the day shift is meant. */
  function ResolveShift(cfg: OpConfig, provided: Option<ShiftType>): (shift: ShiftType)
    ensures shift == Night <==> provided == Some(Night) && cfg.hasNightShift
  {
    var shift := provided.GetOr(Day);
    if shift == Night && !cfg.hasNightShift then Day else shift
  }

  function NormalizeReportDate(ms: int): int {
    ms / MS_PER_DAY * MS_PER_DAY
  }

  /** The report date is the midnight of the UTC day that holds the moment. */
  lemma ReportDateIsMidnight(ms: int)
    ensures NormalizeReportDate(ms) <= ms < NormalizeReportDate(ms) + 86_400_000
    ensures NormalizeReportDate(ms) % 86_400_000 == 0
  {
  }

  function ShiftStartAt(date: int, shift: ShiftType, cfg: OpConfig): int {
    var start := if shift == Day then cfg.dayStart else cfg.nightStart;
    date + (start.hours * 60 + start.minutes) * 60_000
  }

  predicate CellAt(c: Cell, t: TenantId, e: EquipmentId, date: int, shift: ShiftType) {
    c.tenant == t && c.equipmentId == e && c.date == date && c.shift == shift
  }

  /** findUnique by (tenant, equipment, date, shift). */
  function FindCell(cells: seq<Cell>, t: TenantId, e: EquipmentId, date: int, shift: ShiftType): (r: Option<nat>)
    ensures r.Some? ==> r.value < |cells| && CellAt(cells[r.value], t, e, date, shift)
    ensures r.None? ==> forall i :: 0 <= i < |cells| ==> !CellAt(cells[i], t, e, date, shift)
  {
    if cells == [] then None
    else
      var last := |cells| - 1;
      if CellAt(cells[last], t, e, date, shift) then Some(last) else FindCell(cells[..last], t, e, date, shift)
  }

  /** findFirst of an earlier date, ordered by (reportDate, createdAt) descending. */
  function LatestEarlierCell(cells: seq<Cell>, t: TenantId, e: EquipmentId, date: int): (r: Option<nat>)
    ensures r.Some? ==> r.value < |cells| && cells[r.value].tenant == t && cells[r.value].equipmentId == e
                        && cells[r.value].date < date
    ensures forall i :: 0 <= i < |cells| && cells[i].tenant == t && cells[i].equipmentId == e && cells[i].date < date ==>
                          r.Some? && (cells[i].date < cells[r.value].date
                                      || (cells[i].date == cells[r.value].date && i <= r.value))
  {
    if cells == [] then None
    else
      var last := |cells| - 1;
      var r := LatestEarlierCell(cells[..last], t, e, date);
      var c := cells[last];
      if c.tenant == t && c.equipmentId == e && c.date < date && (r.None? || cells[r.value].date <= c.date)
      then Some(last) else r
  }

  /** The status before this report: of the same cell, of the day shift for a night one, or of the last earlier date. */
  function ResolvePrevious(cells: seq<Cell>, t: TenantId, e: EquipmentId, date: int, shift: ShiftType,
                           current: Option<OperationalStatus>): Option<OperationalStatus> {
    if current.Some? then current
    else
      var sameDay := if shift == Night then FindCell(cells, t, e, date, Day) else None;
      if sameDay.Some? then Some(cells[sameDay.value].status)
      else
        var earlier := LatestEarlierCell(cells, t, e, date);
        if earlier.Some? then Some(cells[earlier.value].status) else None
  }

  /** The blockers are evaluated early exactly for a return from a stop to OPERATIONAL. */
  predicate ReturnsToService(status: OperationalStatus, previous: Option<OperationalStatus>) {
    status == Operational && previous.Some? && IsStop(previous.value)
  }

  function ReturnDecision(s: State, t: TenantId, e: EquipmentId, status: OperationalStatus,
                          previous: Option<OperationalStatus>): Option<Decision> {
    if ReturnsToService(status, previous) then Some(Resolve(s, t, e, None)) else None
  }

  function NewCell(s: State, who: Caller, dto: ReportDto, date: int, shift: ShiftType): Cell
    requires dto.equipmentId in s.equipment
  {
    Cell(who.tenant, dto.equipmentId, s.equipment[dto.equipmentId].contract, who.userId, date, shift, dto.status,
         dto.meterReading, dto.comments)
  }

  function EditedCell(c: Cell, who: Caller, dto: ReportDto): Cell {
    c.(status := dto.status, meterReading := dto.meterReading, comments := dto.comments, reportedBy := who.userId)
  }

  function EventInput(who: Caller, dto: ReportDto, cellId: nat, previous: Option<OperationalStatus>, eventAt: int)
    : Timeline.RegisterInput
  {
    Timeline.RegisterInput(who.tenant, dto.equipmentId, Some(cellId), None, Some(who.userId), dto.status, previous,
                           dto.meterReading, dto.comments, eventAt, Some(Manual))
  }

  /** What both report operations do once their cell is stored: event, meter, operational transition. */
  function Finish(s: State, who: Caller, dto: ReportDto, cellId: nat, previous: Option<OperationalStatus>,
                  eventAt: int, decision: Option<Decision>, env: Env): Tx<Transition>
    requires dto.equipmentId in s.equipment
  {
    match Timeline.Register(s.events, s.faults, EventInput(who, dto, cellId, previous, eventAt), env.eventId, env.createdAt)
    case Rejected(reason) => Aborted(InvalidEvent(reason))
    case Registered(events) =>
      var s1 := s.(events := events);
      var s2 := MeterAdvanced(s1, dto.equipmentId, dto.meterReading, AvailabilityReport, cellId, who.userId);
      StatusChange(s2, TransitionInput(who.tenant, dto.equipmentId, dto.status, previous, dto.meterReading, decision))
  }

  /** `create`: a second report of the same cell is a conflict. */
  function Create(s: State, who: Caller, cfg: OpConfig, dto: ReportDto, env: Env): Tx<Transition> {
    var shift := ResolveShift(cfg, dto.shift);
    if !Owns(s, who.tenant, dto.equipmentId) then Aborted(EquipmentNotFound)
    else
      var date := NormalizeReportDate(dto.reportDate);
      var previous := ResolvePrevious(s.cells, who.tenant, dto.equipmentId, date, shift, None);
      var decision := ReturnDecision(s, who.tenant, dto.equipmentId, dto.status, previous);
      if decision.Some? && !decision.value.allowed then Aborted(ReturnToServiceBlocked(decision.value.blockers))
      else if FindCell(s.cells, who.tenant, dto.equipmentId, date, shift).Some? then Aborted(DuplicateReport)
      else Finish(s.(cells := s.cells + [NewCell(s, who, dto, date, shift)]), who, dto, |s.cells|, previous,
                  ShiftStartAt(date, shift, cfg), decision, env)
  }

  /** `upsertRow`: a second report of the same cell edits it, and its event happens now. */
  function Upsert(s: State, who: Caller, cfg: OpConfig, dto: ReportDto, shift: ShiftType, env: Env): Tx<Transition> {
    if !Owns(s, who.tenant, dto.equipmentId) then Aborted(EquipmentNotFound)
    else
      var date := NormalizeReportDate(dto.reportDate);
      var existing := FindCell(s.cells, who.tenant, dto.equipmentId, date, shift);
      var eventAt := if existing.Some? then env.now else ShiftStartAt(date, shift, cfg);
      var current := if existing.Some? then Some(s.cells[existing.value].status) else None;
      var previous := ResolvePrevious(s.cells, who.tenant, dto.equipmentId, date, shift, current);
      var decision := ReturnDecision(s, who.tenant, dto.equipmentId, dto.status, previous);
      if decision.Some? && !decision.value.allowed then Aborted(ReturnToServiceBlocked(decision.value.blockers))
      else
        var cells := if existing.Some?
                     then s.cells[existing.value := EditedCell(s.cells[existing.value], who, dto)]
                     else s.cells + [NewCell(s, who, dto, date, shift)];
        Finish(s.(cells := cells), who, dto, if existing.Some? then existing.value else |s.cells|, previous, eventAt,
               decision, env)
  }

  method FinishReport(db: Database, who: Caller, dto: ReportDto, cellId: nat, previous: Option<OperationalStatus>,
                      eventAt: int, decision: Option<Decision>, env: Env)
    returns (out: Outcome<Transition>)
    requires dto.equipmentId in db.equipment
    modifies db
    ensures Finish(old(db.Snapshot()), who, dto, cellId, previous, eventAt, decision, env).Committed? ==>
              Follows(old(db.Snapshot()), Finish(old(db.Snapshot()), who, dto, cellId, previous, eventAt, decision, env),
                      db.Snapshot(), out)
    ensures Finish(old(db.Snapshot()), who, dto, cellId, previous, eventAt, decision, env).Aborted? ==>
              out == Failure(Finish(old(db.Snapshot()), who, dto, cellId, previous, eventAt, decision, env).error)
  {
    var error := Timeline.RegisterEvent(db, EventInput(who, dto, cellId, previous, eventAt), env.eventId, env.createdAt);
    if error.Some? {
      return Failure(InvalidEvent(error.value));
    }
    AdvanceMeter(db, dto.equipmentId, dto.meterReading, AvailabilityReport, cellId, who.userId);
    out := OnOperationalStatusChange(
      db, TransitionInput(who.tenant, dto.equipmentId, dto.status, previous, dto.meterReading, decision));
  }

  method CreateReport(db: Database, who: Caller, cfg: OpConfig, dto: ReportDto, env: Env)
    returns (out: Outcome<Transition>)
    modifies db
    ensures Follows(old(db.Snapshot()), Create(old(db.Snapshot()), who, cfg, dto, env), db.Snapshot(), out)
  {
    var begin := db.Snapshot();
    var shift := ResolveShift(cfg, dto.shift);
    if !Owns(begin, who.tenant, dto.equipmentId) {
      return Failure(EquipmentNotFound);
    }
    var date := NormalizeReportDate(dto.reportDate);
    var previous := ResolvePrevious(db.cells, who.tenant, dto.equipmentId, date, shift, None);
    var decision: Option<Decision> := None;
    if ReturnsToService(dto.status, previous) {
      var resolved := ResolveReturnToService(db, who.tenant, dto.equipmentId, None);
      decision := Some(resolved);
      if !resolved.allowed {
        return Failure(ReturnToServiceBlocked(resolved.blockers));
      }
    }
    if FindCell(db.cells, who.tenant, dto.equipmentId, date, shift).Some? {
      return Failure(DuplicateReport);
    }
    var cellId := |db.cells|;
    db.cells := db.cells + [NewCell(begin, who, dto, date, shift)];
    out := FinishReport(db, who, dto, cellId, previous, ShiftStartAt(date, shift, cfg), decision, env);
    if out.Failure? {
      db.Rollback(begin);
    }
  }

  method UpsertRow(db: Database, who: Caller, cfg: OpConfig, dto: ReportDto, shift: ShiftType, env: Env)
    returns (out: Outcome<Transition>)
    modifies db
    ensures Follows(old(db.Snapshot()), Upsert(old(db.Snapshot()), who, cfg, dto, shift, env), db.Snapshot(), out)
  {
    var begin := db.Snapshot();
    if !Owns(begin, who.tenant, dto.equipmentId) {
      return Failure(EquipmentNotFound);
    }
    var date := NormalizeReportDate(dto.reportDate);
    var existing := FindCell(db.cells, who.tenant, dto.equipmentId, date, shift);
    var eventAt := if existing.Some? then env.now else ShiftStartAt(date, shift, cfg);
    var current := if existing.Some? then Some(db.cells[existing.value].status) else None;
    var previous := ResolvePrevious(db.cells, who.tenant, dto.equipmentId, date, shift, current);
    var decision: Option<Decision> := None;
    if ReturnsToService(dto.status, previous) {
      var resolved := ResolveReturnToService(db, who.tenant, dto.equipmentId, None);
      decision := Some(resolved);
      if !resolved.allowed {
        return Failure(ReturnToServiceBlocked(resolved.blockers));
      }
    }
    var cellId := |db.cells|;
    if existing.Some? {
      cellId := existing.value;
      db.cells := db.cells[cellId := EditedCell(db.cells[cellId], who, dto)];
    } else {
      db.cells := db.cells + [NewCell(begin, who, dto, date, shift)];
    }
    out := FinishReport(db, who, dto, cellId, previous, eventAt, decision, env);
    if out.Failure? {
      db.Rollback(begin);
    }
  }
}

/**
 * The previous status of every event over whole operational runs. Each report passes the
 * status it resolved from the cells as an override; what the timeline makes of it is stated
 * here for any interleaving of steps.
 */
module StatusHistory {
  import opened Common
  import opened Tables
  import opened AvailabilityReports
  import opened MeterSync
  import opened OperationalSteps
  import opened StopTransitions
  import OperationalBlockers
  import Orchestrator
  import Bulk = BulkMeterSync
  import Timeline = AvailabilityTimeline
  import Trail = ReportTrail

  /** The overrides that a step adds to the event table: the resolved status of a committed report. */
  function DeclaredBy(s: State, step: Step): seq<Option<OperationalStatus>> {
    if IsReport(step) && ReportTx(s, step).Committed? then [PreviousOf(s, step)] else []
  }

  function DeclaredAlong(s: State, steps: seq<Step>): seq<Option<OperationalStatus>> {
    if steps == [] then []
    else
      var rest := steps[..|steps| - 1];
      DeclaredAlong(s, rest) + DeclaredBy(Run(s, rest), steps[|steps| - 1])
  }

  /** All derived fields of the event table are exact, `declared` being the overrides of its rows. */
  ghost predicate Exact(events: seq<Event>, declared: seq<Option<OperationalStatus>>) {
    Timeline.UniqueIds(events) && Timeline.ElapsedExact(events) && Timeline.StatusExact(events, declared)
  }

  /** The report registered exactly one event, with this override. */
  ghost predicate OneMore(events: seq<Event>, events': seq<Event>, declared: Option<OperationalStatus>) {
    exists e: Event :: events' == Timeline.Inserted(events, e, declared)
                       && (Timeline.UniqueIds(events) ==> Timeline.UniqueIds(events + [e]))
  }

  lemma FinishRegisters(s: State, who: Caller, dto: ReportDto, cellId: nat, previous: Option<OperationalStatus>,
                        eventAt: int, decision: Option<OperationalBlockers.Decision>, env: Env)
    requires dto.equipmentId in s.equipment && Finish(s, who, dto, cellId, previous, eventAt, decision, env).Committed?
    ensures OneMore(s.events, Finish(s, who, dto, cellId, previous, eventAt, decision, env).state.events, previous)
  {
    var input := EventInput(who, dto, cellId, previous, eventAt);
    var e := Timeline.InitialEvent(input, env.eventId, env.createdAt);
    var call := Timeline.Call(input, s.faults, env.eventId, env.createdAt);
    if Timeline.UniqueIds(s.events) {
      Timeline.AcceptedIsFresh(s.events, call);
    }
    var s1 := s.(events := Timeline.Inserted(s.events, e, previous));
    var s2 := MeterAdvanced(s1, dto.equipmentId, dto.meterReading, AvailabilityReport, cellId, who.userId);
    Trail.TransitionKeepsTrace(s2, Orchestrator.TransitionInput(who.tenant, dto.equipmentId, dto.status, previous,
                                                                dto.meterReading, decision));
  }

  lemma CreateRegisters(s: State, who: Caller, cfg: OpConfig, dto: ReportDto, env: Env)
    requires AvailabilityReports.Create(s, who, cfg, dto, env).Committed?
    ensures OneMore(s.events, AvailabilityReports.Create(s, who, cfg, dto, env).state.events,
                    PreviousFor(s, who, dto, ResolveShift(cfg, dto.shift), false))
  {
    var shift := ResolveShift(cfg, dto.shift);
    var date := NormalizeReportDate(dto.reportDate);
    var previous := PreviousFor(s, who, dto, shift, false);
    FinishRegisters(s.(cells := s.cells + [NewCell(s, who, dto, date, shift)]), who, dto, |s.cells|, previous,
                    ShiftStartAt(date, shift, cfg),
                    ReturnDecision(s, who.tenant, dto.equipmentId, dto.status, previous), env);
  }

  lemma UpsertRegisters(s: State, who: Caller, cfg: OpConfig, dto: ReportDto, shift: ShiftType, env: Env)
    requires Upsert(s, who, cfg, dto, shift, env).Committed?
    ensures OneMore(s.events, Upsert(s, who, cfg, dto, shift, env).state.events, PreviousFor(s, who, dto, shift, true))
  {
    var date := NormalizeReportDate(dto.reportDate);
    var existing := FindCell(s.cells, who.tenant, dto.equipmentId, date, shift);
    var previous := PreviousFor(s, who, dto, shift, true);
    FinishRegisters(s.(cells := StoredCells(s, who, dto, shift)), who, dto,
                    if existing.Some? then existing.value else |s.cells|, previous,
                    if existing.Some? then env.now else ShiftStartAt(date, shift, cfg),
                    ReturnDecision(s, who.tenant, dto.equipmentId, dto.status, previous), env);
  }

  lemma ExactOneMore(events: seq<Event>, events': seq<Event>, declared: seq<Option<OperationalStatus>>,
                     d: Option<OperationalStatus>)
    requires Exact(events, declared) && OneMore(events, events', d)
    ensures Exact(events', declared + [d])
  {
    var e: Event :| events' == Timeline.Inserted(events, e, d)
                    && (Timeline.UniqueIds(events) ==> Timeline.UniqueIds(events + [e]));
    Timeline.InsertedExact(events, e, d, declared);
    Timeline.InsertedBase(events, e, d);
    forall i, j | 0 <= i < j < |events'|
      ensures events'[i].id != events'[j].id
    {
      assert events'[i].id == (events + [e])[i].id && events'[j].id == (events + [e])[j].id;
    }
  }

  lemma BulkKeepsEvents(s: State, step: Step)
    requires step.SyncMeters?
    ensures Apply(s, step).events == s.events
  {
    if Bulk.BulkSync(s, step.who, step.visible, step.raw).Committed? {
      Bulk.FirstErrorNone(step.raw);
      SyncKeepsEvents(s, step.who, step.visible, Bulk.Merged(step.raw));
    }
  }

  lemma SyncKeepsEvents(s: State, who: Caller, visible: set<EquipmentId>, items: seq<Bulk.Item>)
    ensures Bulk.SyncAll(s, who, visible, items).0.events == s.events
  {
  }

  /** Only a committed report registers an event. */
  lemma QuietKeepsEvents(s: State, step: Step)
    requires DeclaredBy(s, step) == []
    ensures Apply(s, step).events == s.events
  {
    if step.SyncMeters? {
      BulkKeepsEvents(s, step);
    }
  }

  lemma StepStatusExact(s: State, step: Step, declared: seq<Option<OperationalStatus>>)
    requires Exact(s.events, declared)
    ensures Exact(Apply(s, step).events, declared + DeclaredBy(s, step))
  {
    if DeclaredBy(s, step) == [] {
      QuietKeepsEvents(s, step);
      assert declared + [] == declared;
    } else {
      if step.CreateReport? {
        CreateRegisters(s, step.who, step.cfg, step.dto, step.env);
      } else {
        UpsertRegisters(s, step.who, step.cfg, step.dto, step.shift, step.env);
      }
      ExactOneMore(s.events, Apply(s, step).events, declared, PreviousOf(s, step));
    }
  }

  /**
   * Over any run: every elapsed time is exact, and an event's previous status is the status of
   * its neighbour when that was registered later, otherwise the status its report resolved from
   * the cells at the time, or the neighbour's when there was none.
   */
  lemma {:induction false} RunStatusExact(s: State, steps: seq<Step>, declared: seq<Option<OperationalStatus>>)
    requires Exact(s.events, declared)
    ensures Exact(Run(s, steps).events, declared + DeclaredAlong(s, steps))
  {
    if steps == [] {
      assert declared + [] == declared;
    } else {
      var rest, last := steps[..|steps| - 1], steps[|steps| - 1];
      RunStatusExact(s, rest, declared);
      StepStatusExact(Run(s, rest), last, declared + DeclaredAlong(s, rest));
      assert declared + DeclaredAlong(s, rest) + DeclaredBy(Run(s, rest), last) == declared + DeclaredAlong(s, steps);
    }
  }
}

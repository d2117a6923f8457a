/**
 * Which report a new one is measured against. The service means the report immediately
 * before it; its query takes the row created last on the last earlier date.
 */
module PreviousReport {
  import opened Common
  import opened Tables
  import opened AvailabilityReports
  import opened OperationalHistory

  predicate Own(c: Cell, t: TenantId, e: EquipmentId) {
    c.tenant == t && c.equipmentId == e
  }

  /** The cell comes before (date, shift): an earlier date, or the day shift before the night shift. */
  predicate Precedes(c: Cell, date: int, shift: ShiftType) {
    c.date < date || (c.date == date && c.shift == Day && shift == Night)
  }

  /** Cell i is the report of the equipment immediately before (date, shift). */
  ghost predicate ImmediatelyBefore(cells: seq<Cell>, t: TenantId, e: EquipmentId, date: int, shift: ShiftType, i: nat) {
    && i < |cells| && Own(cells[i], t, e) && Precedes(cells[i], date, shift)
    && forall j :: 0 <= j < |cells| && Own(cells[j], t, e) && Precedes(cells[j], date, shift) ==>
                     j == i || Precedes(cells[j], cells[i].date, cells[i].shift)
  }

  /** The row the service takes the status from. */
  function PreviousCell(cells: seq<Cell>, t: TenantId, e: EquipmentId, date: int, shift: ShiftType): (r: Option<nat>)
    ensures r.Some? ==> r.value < |cells|
    ensures ResolvePrevious(cells, t, e, date, shift, None) ==
            if r.Some? then Some(cells[r.value].status) else None
  {
    if shift == Night && FindCell(cells, t, e, date, Day).Some? then FindCell(cells, t, e, date, Day)
    else LatestEarlierCell(cells, t, e, date)
  }

  /** Rows n and d are both reports of the last date before `date`, and its day shift was reported after its night. */
  ghost predicate DayAfterNight(cells: seq<Cell>, t: TenantId, e: EquipmentId, date: int, n: nat, d: nat) {
    && n < d < |cells| && Own(cells[n], t, e) && Own(cells[d], t, e)
    && cells[n].shift == Night && cells[d].shift == Day && cells[n].date == cells[d].date < date
    && forall j :: 0 <= j < |cells| && Own(cells[j], t, e) && cells[j].date < date ==> cells[j].date <= cells[d].date
  }

  /** The last earlier date decides, and its day shift was reported after its night shift. */
  ghost predicate ReportedOutOfOrder(cells: seq<Cell>, t: TenantId, e: EquipmentId, date: int, shift: ShiftType) {
    && (shift == Night ==> FindCell(cells, t, e, date, Day).None?)
    && exists n: nat, d: nat :: DayAfterNight(cells, t, e, date, n, d)
  }

  lemma OneCellPerShift(cells: seq<Cell>, t: TenantId, e: EquipmentId, i: nat, j: nat)
    requires UniqueCells(cells) && i < |cells| && j < |cells|
    requires Own(cells[i], t, e) && Own(cells[j], t, e)
    requires cells[i].date == cells[j].date && cells[i].shift == cells[j].shift
    ensures i == j
  {
  }

  /** No row is found exactly when the equipment has no report before this one. */
  lemma NoneIffFirst(cells: seq<Cell>, t: TenantId, e: EquipmentId, date: int, shift: ShiftType)
    ensures PreviousCell(cells, t, e, date, shift).None? <==>
            !exists j :: 0 <= j < |cells| && Own(cells[j], t, e) && Precedes(cells[j], date, shift)
  {
  }

  lemma SameDayIsImmediate(cells: seq<Cell>, t: TenantId, e: EquipmentId, date: int)
    requires UniqueCells(cells) && FindCell(cells, t, e, date, Day).Some?
    ensures ImmediatelyBefore(cells, t, e, date, Night, FindCell(cells, t, e, date, Day).value)
  {
  }

  /** On the last earlier date, the row created last is the later shift unless day came after night. */
  lemma LatestIsImmediateIff(cells: seq<Cell>, t: TenantId, e: EquipmentId, date: int, shift: ShiftType, i: nat)
    requires UniqueCells(cells) && LatestEarlierCell(cells, t, e, date) == Some(i)
    requires shift == Night ==> FindCell(cells, t, e, date, Day).None?
    ensures i < |cells|
    ensures ImmediatelyBefore(cells, t, e, date, shift, i) <==>
            !exists n: nat, d: nat :: DayAfterNight(cells, t, e, date, n, d)
  {
    if n: nat, d: nat :| DayAfterNight(cells, t, e, date, n, d) {
      if cells[i].shift == Day {
        OneCellPerShift(cells, t, e, i, d);
      } else {
        OneCellPerShift(cells, t, e, i, n);
      }
      assert i == d && Precedes(cells[n], date, shift) && !Precedes(cells[n], cells[i].date, cells[i].shift);
    } else {
      forall j | 0 <= j < |cells| && Own(cells[j], t, e) && Precedes(cells[j], date, shift)
        ensures j == i || Precedes(cells[j], cells[i].date, cells[i].shift)
      {
        if cells[j].date == cells[i].date && cells[j].shift != cells[i].shift {
          assert !DayAfterNight(cells, t, e, date, j, i);
        }
      }
    }
  }

  /** The status comes from the report immediately before, except exactly when day was reported after night. */
  lemma PreviousIsImmediateIff(cells: seq<Cell>, t: TenantId, e: EquipmentId, date: int, shift: ShiftType)
    requires UniqueCells(cells) && PreviousCell(cells, t, e, date, shift).Some?
    ensures ImmediatelyBefore(cells, t, e, date, shift, PreviousCell(cells, t, e, date, shift).value) <==>
            !ReportedOutOfOrder(cells, t, e, date, shift)
  {
    if shift == Night && FindCell(cells, t, e, date, Day).Some? {
      SameDayIsImmediate(cells, t, e, date);
    } else {
      LatestIsImmediateIff(cells, t, e, date, shift, LatestEarlierCell(cells, t, e, date).value);
    }
  }

  /** Both shift starts are times of the day, as the configuration accepts them. */
  predicate ValidTimes(cfg: OpConfig) {
    cfg.dayStart.hours < 24 && cfg.dayStart.minutes < 60 && cfg.nightStart.hours < 24 && cfg.nightStart.minutes < 60
  }

  predicate DayStartsFirst(cfg: OpConfig) {
    cfg.dayStart.hours * 60 + cfg.dayStart.minutes < cfg.nightStart.hours * 60 + cfg.nightStart.minutes
  }

  /** The event of a new cell falls on the cell's own day, whatever the configured times. */
  lemma StartsOnItsDay(cfg: OpConfig, date: int, shift: ShiftType)
    requires ValidTimes(cfg) && date % MS_PER_DAY == 0
    ensures date <= ShiftStartAt(date, shift, cfg) < date + MS_PER_DAY
    ensures NormalizeReportDate(ShiftStartAt(date, shift, cfg)) == date
  {
  }

  /** The events of new cells are in the order of the cells' dates and shifts. */
  ghost predicate EventsFollowShifts(cfg: OpConfig) {
    forall a: Cell, b: Cell :: a.date % MS_PER_DAY == 0 && b.date % MS_PER_DAY == 0 ==>
      (ShiftStartAt(a.date, a.shift, cfg) < ShiftStartAt(b.date, b.shift, cfg) <==> Precedes(a, b.date, b.shift))
  }

  lemma DayFirstFollows(cfg: OpConfig, a: Cell, b: Cell)
    requires ValidTimes(cfg) && DayStartsFirst(cfg) && a.date % MS_PER_DAY == 0 && b.date % MS_PER_DAY == 0
    ensures ShiftStartAt(a.date, a.shift, cfg) < ShiftStartAt(b.date, b.shift, cfg) <==> Precedes(a, b.date, b.shift)
  {
    StartsOnItsDay(cfg, a.date, a.shift);
    StartsOnItsDay(cfg, b.date, b.shift);
    if a.date < b.date {
      MidnightsApart(a.date, b.date);
    } else if b.date < a.date {
      MidnightsApart(b.date, a.date);
    }
  }

  lemma MidnightsApart(from: int, to: int)
    requires from % MS_PER_DAY == 0 && to % MS_PER_DAY == 0 && from < to
    ensures from + MS_PER_DAY <= to
  {
  }

  /** Over all configurations: events follow shifts exactly when the day shift starts before the night shift. */
  lemma EventsFollowShiftsIff(cfg: OpConfig)
    requires ValidTimes(cfg)
    ensures EventsFollowShifts(cfg) <==> DayStartsFirst(cfg)
  {
    if DayStartsFirst(cfg) {
      forall a: Cell, b: Cell | a.date % MS_PER_DAY == 0 && b.date % MS_PER_DAY == 0
        ensures ShiftStartAt(a.date, a.shift, cfg) < ShiftStartAt(b.date, b.shift, cfg) <==> Precedes(a, b.date, b.shift)
      {
        DayFirstFollows(cfg, a, b);
      }
    } else {
      var day := Cell(1, 7, None, 9, 0, Day, Operational, None, None);
      var night := day.(shift := Night);
      assert Precedes(day, night.date, night.shift);
      assert !(ShiftStartAt(day.date, day.shift, cfg) < ShiftStartAt(night.date, night.shift, cfg));
    }
  }

  /** A night stop hidden by the day report that was entered after it: the next day's return is no return. */
  lemma LateDayReportHidesStop()
    ensures exists cells: seq<Cell>, t: TenantId, e: EquipmentId, date: int ::
              UniqueCells(cells) && ImmediatelyBefore(cells, t, e, date, Day, 0) && cells[0].status == DownFailure
              && ResolvePrevious(cells, t, e, date, Day, None) == Some(Operational)
  {
    var night := Cell(1, 7, None, 9, 0, Night, DownFailure, None, None);
    var day := Cell(1, 7, None, 9, 0, Day, Operational, None, None);
    var cells := [night, day];
    assert cells[..1] == [night] && [night][..0] == [];
    assert LatestEarlierCell([night], 1, 7, MS_PER_DAY) == Some(0);
    assert LatestEarlierCell(cells, 1, 7, MS_PER_DAY) == Some(1);
    assert UniqueCells(cells) && ImmediatelyBefore(cells, 1, 7, MS_PER_DAY, Day, 0);
    assert ResolvePrevious(cells, 1, 7, MS_PER_DAY, Day, None) == Some(Operational);
  }
}

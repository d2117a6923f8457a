/** The two-phase availability import: a dry-run verdict per sheet row, then one upsert per accepted row. */
module ExcelImport {
  import opened Common
  import opened Tables
  import opened MeterParser
  import opened TextTools
  import opened Orchestrator
  import opened AvailabilityReports
  import opened OperationalSteps
  import opened StopTransitions

  /** A data row of the sheet, its cells already read. */
  datatype SheetRow = SheetRow(equipmentId: Option<EquipmentId>, status: string, meter: RawCell, comments: string)

  datatype RowError = EquipmentNotInFleet | DuplicateInFile | UnknownStatus | InvalidMeter
  datatype Action = CreateRow | UpdateRow | SkipRow | ErrorRow(why: RowError)

  datatype Preview = Preview(rowNum: nat, equipmentId: EquipmentId, status: Option<OperationalStatus>,
                             meterReading: Option<int>, comments: Option<string>, action: Action,
                             readingGoesBack: bool)

  /** Who imports, with which contracts, for which template. */
  datatype Context = Context(who: Caller, contracts: Option<set<ContractId>>, cfg: OpConfig, reportDate: int,
                             storedShift: ShiftType, other: OtherNumber)

  function EffectiveShift(ctx: Context): ShiftType {
    ResolveShift(ctx.cfg, Some(ctx.storedShift))
  }

  // ------------------------------------------------------------------ phase 1

  predicate InFleet(s: State, ctx: Context, e: EquipmentId) {
    Owns(s, ctx.who.tenant, e)
    && (ctx.contracts.None?
        || (s.equipment[e].contract.Some? && s.equipment[e].contract.value in ctx.contracts.value))
  }

  /** Runs of white space become one space. */
  function Collapse(s: string): string {
    if s == [] then []
    else if IsSpace(s[0]) then (if |s| > 1 && IsSpace(s[1]) then [] else [' ']) + Collapse(s[1..])
    else [s[0]] + Collapse(s[1..])
  }

  function StatusOf(text: string): Option<OperationalStatus> {
    var normalized := Lower(Collapse(Trim(text)));
    if normalized == "operativo" then Some(Operational)
    else if normalized == "standby" then Some(Standby)
    else if normalized == "reserva sin operador" then Some(ReserveNoOperator)
    else if normalized == "detenido por falla" then Some(DownFailure)
    else if normalized == "detenido por mantenimiento" then Some(DownMaintenance)
    else None
  }

  function CommentsOf(text: string): Option<string> {
    if Trim(text) == [] then None else Some(Trim(text))
  }

  /** Text was entered, but no reading came out of it. */
  predicate MeterHadText(raw: RawCell, other: OtherNumber) {
    ParseMeter(raw, other).None? && (raw.Num? || (raw.Text? && Trim(raw.text) != []))
  }

  function ExistingCell(s: State, ctx: Context, e: EquipmentId): Option<nat> {
    FindCell(s.cells, ctx.who.tenant, e, NormalizeReportDate(ctx.reportDate), EffectiveShift(ctx))
  }

  predicate SameContents(c: Cell, status: OperationalStatus, meter: Option<int>, comments: Option<string>) {
    c.status == status && c.meterReading == meter && c.comments == comments
  }

  /** The verdict on a row whose equipment is `e`; `seen` are the equipments of earlier rows. */
  function Judge(s: State, ctx: Context, seen: set<EquipmentId>, e: EquipmentId, row: SheetRow): Action {
    if !InFleet(s, ctx, e) then ErrorRow(EquipmentNotInFleet)
    else if e in seen then ErrorRow(DuplicateInFile)
    else if StatusOf(row.status).None? then ErrorRow(UnknownStatus)
    else if MeterHadText(row.meter, ctx.other) then ErrorRow(InvalidMeter)
    else
      var existing := ExistingCell(s, ctx, e);
      if existing.None? then CreateRow
      else if SameContents(s.cells[existing.value], StatusOf(row.status).value, ParseMeter(row.meter, ctx.other),
                           CommentsOf(row.comments))
      then SkipRow
      else UpdateRow
  }

  /** A rejected row shows no warning, and no status or reading when that was not looked at. */
  function PreviewOf(s: State, ctx: Context, seen: set<EquipmentId>, rowNum: nat, e: EquipmentId, row: SheetRow): Preview {
    var verdict := Judge(s, ctx, seen, e, row);
    var reading := if verdict == ErrorRow(EquipmentNotInFleet) then None else ParseMeter(row.meter, ctx.other);
    var status := if verdict in {ErrorRow(EquipmentNotInFleet), ErrorRow(DuplicateInFile)} then None else StatusOf(row.status);
    Preview(rowNum, e, status, reading, CommentsOf(row.comments), verdict,
            !verdict.ErrorRow? && reading.Some? && reading.value < s.equipment[e].currentMeter)
  }

  /** Equipments of the fleet named by the rows: the duplicate-detection set after them. */
  function Seen(s: State, ctx: Context, rows: seq<SheetRow>): set<EquipmentId> {
    set r | r in rows && r.equipmentId.Some? && InFleet(s, ctx, r.equipmentId.value) :: r.equipmentId.value
  }

  /** One preview per row with an equipment cell; truly blank rows are skipped. */
  function Previews(s: State, ctx: Context, rows: seq<SheetRow>): seq<Preview> {
    if rows == [] then []
    else
      var n := |rows| - 1;
      Previews(s, ctx, rows[..n])
      + match rows[n].equipmentId
        case None => []
        case Some(e) => [PreviewOf(s, ctx, Seen(s, ctx, rows[..n]), n, e, rows[n])]
  }

  lemma PreviewsOneMore(s: State, ctx: Context, rows: seq<SheetRow>, n: nat)
    requires n < |rows|
    ensures Previews(s, ctx, rows[..n + 1]) ==
            Previews(s, ctx, rows[..n])
            + (if rows[n].equipmentId.None? then []
               else [PreviewOf(s, ctx, Seen(s, ctx, rows[..n]), n, rows[n].equipmentId.value, rows[n])])
    ensures Seen(s, ctx, rows[..n + 1]) ==
            Seen(s, ctx, rows[..n])
            + (if rows[n].equipmentId.Some? && InFleet(s, ctx, rows[n].equipmentId.value)
               then {rows[n].equipmentId.value} else {})
  {
    assert rows[..n + 1][..n] == rows[..n];
    assert rows[..n + 1] == rows[..n] + [rows[n]];
  }

  method ValidateImport(db: Database, ctx: Context, rows: seq<SheetRow>) returns (previews: seq<Preview>)
    ensures previews == Previews(db.Snapshot(), ctx, rows)
  {
    var s := db.Snapshot();
    previews := [];
    var seenEquipmentIds: set<EquipmentId> := {};
    for n := 0 to |rows|
      invariant previews == Previews(s, ctx, rows[..n])
      invariant seenEquipmentIds == Seen(s, ctx, rows[..n])
    {
      PreviewsOneMore(s, ctx, rows, n);
      if rows[n].equipmentId.Some? {
        var e := rows[n].equipmentId.value;
        previews := previews + [PreviewOf(s, ctx, seenEquipmentIds, n, e, rows[n])];
        if InFleet(s, ctx, e) {
          seenEquipmentIds := seenEquipmentIds + {e};
        }
      }
    }
    assert rows[..|rows|] == rows;
  }

  // ------------------------------------------------------------------ phase 2

  /** The rows the client sends to commit. */
  predicate ToCommit(p: Preview) {
    p.action == CreateRow || p.action == UpdateRow
  }

  function DtoOf(ctx: Context, p: Preview): ReportDto {
    ReportDto(p.equipmentId, ctx.reportDate, Some(EffectiveShift(ctx)), p.status.GetOr(Operational), p.meterReading,
              p.comments)
  }

  /** The transaction of one committed row: the shift is resolved again on the way in. */
  function RowTx(s: State, ctx: Context, p: Preview, env: Env): Tx<Transition> {
    Upsert(s, ctx.who, ctx.cfg, DtoOf(ctx, p), ResolveShift(ctx.cfg, Some(EffectiveShift(ctx))), env)
  }

  /** One transaction per row; a failing row leaves the others alone. The flags say which rows were saved. */
  function CommitAll(s: State, ctx: Context, ps: seq<Preview>, env: nat -> Env): (r: (State, seq<bool>))
    ensures |r.1| == |ps|
  {
    if ps == [] then (s, [])
    else
      var n := |ps| - 1;
      var (s1, saved) := CommitAll(s, ctx, ps[..n], env);
      if !ToCommit(ps[n]) then (s1, saved + [false])
      else (After(s1, RowTx(s1, ctx, ps[n], env(n))), saved + [RowTx(s1, ctx, ps[n], env(n)).Committed?])
  }

  function CountTrue(flags: seq<bool>): nat {
    if flags == [] then 0 else CountTrue(flags[..|flags| - 1]) + (if flags[|flags| - 1] then 1 else 0)
  }

  function CountToCommit(ps: seq<Preview>): nat {
    if ps == [] then 0 else CountToCommit(ps[..|ps| - 1]) + (if ToCommit(ps[|ps| - 1]) then 1 else 0)
  }

  lemma CountOneMore(flags: seq<bool>, flag: bool)
    ensures CountTrue(flags + [flag]) == CountTrue(flags) + (if flag then 1 else 0)
  {
  }

  lemma CommitOneMore(s: State, ctx: Context, ps: seq<Preview>, env: nat -> Env, n: nat)
    requires n < |ps|
    ensures CountToCommit(ps[..n + 1]) == CountToCommit(ps[..n]) + (if ToCommit(ps[n]) then 1 else 0)
    ensures var (s1, saved) := CommitAll(s, ctx, ps[..n], env);
            CommitAll(s, ctx, ps[..n + 1], env) ==
              if !ToCommit(ps[n]) then (s1, saved + [false])
              else (After(s1, RowTx(s1, ctx, ps[n], env(n))), saved + [RowTx(s1, ctx, ps[n], env(n)).Committed?])
  {
    assert ps[..n + 1][..n] == ps[..n];
  }

  /** One pass of the loop, inside its try block. */
  method CommitRow(db: Database, ctx: Context, p: Preview, env: Env) returns (error: Option<Error>)
    modifies db
    ensures db.Snapshot() == After(old(db.Snapshot()), RowTx(old(db.Snapshot()), ctx, p, env))
    ensures error.None? <==> RowTx(old(db.Snapshot()), ctx, p, env).Committed?
  {
    var out := UpsertRow(db, ctx.who, ctx.cfg, DtoOf(ctx, p), ResolveShift(ctx.cfg, Some(EffectiveShift(ctx))), env);
    error := if out.Success? then None else Some(out.error);
  }

  /** Every row sent is either counted as committed or listed as an error. */
  method CommitImport(db: Database, ctx: Context, ps: seq<Preview>, env: nat -> Env)
    returns (committed: nat, errors: seq<(EquipmentId, Error)>, saved: seq<bool>)
    modifies db
    ensures (db.Snapshot(), saved) == CommitAll(old(db.Snapshot()), ctx, ps, env)
    ensures committed == CountTrue(saved) && committed + |errors| == CountToCommit(ps)
  {
    committed, errors, saved := 0, [], [];
    for n := 0 to |ps|
      invariant (db.Snapshot(), saved) == CommitAll(old(db.Snapshot()), ctx, ps[..n], env)
      invariant committed == CountTrue(saved) && committed + |errors| == CountToCommit(ps[..n])
    {
      CommitOneMore(old(db.Snapshot()), ctx, ps, env, n);
      var ok := false;
      if ToCommit(ps[n]) {
        var error := CommitRow(db, ctx, ps[n], env(n));
        ok := error.None?;
        if ok {
          committed := committed + 1;
        } else {
          errors := errors + [(ps[n].equipmentId, error.value)];
        }
      }
      CountOneMore(saved, ok);
      saved := saved + [ok];
    }
    assert ps[..|ps|] == ps;
  }

  // --------------------------------------------------------------- idempotence

  /** The contents a second validation compares a row against. */
  function Contents(s: State, ctx: Context, e: EquipmentId): Option<(OperationalStatus, Option<int>, Option<string>)> {
    var existing := ExistingCell(s, ctx, e);
    if existing.None? then None
    else Some((s.cells[existing.value].status, s.cells[existing.value].meterReading, s.cells[existing.value].comments))
  }

  ghost predicate SameFleetView(s: State, s': State, ctx: Context) {
    forall e :: InFleet(s', ctx, e) <==> InFleet(s, ctx, e)
  }

  lemma {:induction false} FindCellIgnores(cells: seq<Cell>, i: nat, c: Cell, t: TenantId, e: EquipmentId, date: int,
                                           shift: ShiftType)
    requires i < |cells| && !CellAt(cells[i], t, e, date, shift) && !CellAt(c, t, e, date, shift)
    ensures FindCell(cells[i := c], t, e, date, shift) == FindCell(cells, t, e, date, shift)
    ensures FindCell(cells, t, e, date, shift) != Some(i)
  {
    var last := |cells| - 1;
    if i < last {
      assert cells[i := c][..last] == cells[..last][i := c];
      FindCellIgnores(cells[..last], i, c, t, e, date, shift);
    } else {
      assert cells[i := c][..last] == cells[..last];
    }
  }

  /** A saved row leaves exactly its own contents, and no trace in the cells of other equipments. */
  lemma RowTxContents(s: State, ctx: Context, p: Preview, env: Env, e: EquipmentId)
    requires RowTx(s, ctx, p, env).Committed?
    ensures Contents(RowTx(s, ctx, p, env).state, ctx, e) ==
            if e == p.equipmentId then Some((p.status.GetOr(Operational), p.meterReading, p.comments))
            else Contents(s, ctx, e)
  {
    var dto := DtoOf(ctx, p);
    var shift := EffectiveShift(ctx);
    assert ResolveShift(ctx.cfg, Some(shift)) == shift;
    if e == p.equipmentId {
      UpsertStoresCell(s, ctx.who, ctx.cfg, dto, shift, env);
    } else {
      UpsertCells(s, ctx.who, ctx.cfg, dto, shift, env);
      var date := NormalizeReportDate(ctx.reportDate);
      var existing := FindCell(s.cells, ctx.who.tenant, p.equipmentId, date, shift);
      if existing.Some? {
        FindCellIgnores(s.cells, existing.value, EditedCell(s.cells[existing.value], ctx.who, dto), ctx.who.tenant, e,
                        date, shift);
      } else {
        var cells := s.cells + [NewCell(s, ctx.who, dto, date, shift)];
        assert cells[..|cells| - 1] == s.cells;
      }
    }
  }

  lemma RowTxKeepsFleet(s: State, ctx: Context, p: Preview, env: Env)
    requires RowTx(s, ctx, p, env).Committed?
    ensures SameFleetView(s, RowTx(s, ctx, p, env).state, ctx)
  {
    var shift := EffectiveShift(ctx);
    assert ResolveShift(ctx.cfg, Some(shift)) == shift;
    UpsertEffect(s, ctx.who, ctx.cfg, DtoOf(ctx, p), shift, env);
    ContractKept(s, UpsertReport(ctx.who, ctx.cfg, DtoOf(ctx, p), shift, env));
  }

  ghost predicate DistinctCommits(ps: seq<Preview>) {
    forall i, j :: 0 <= i < j < |ps| && ToCommit(ps[i]) && ToCommit(ps[j]) ==> ps[i].equipmentId != ps[j].equipmentId
  }

  /** Same fleet; a saved row's contents are in place; every equipment without a saved row is as before. */
  ghost predicate BatchResult(s: State, s': State, ctx: Context, ps: seq<Preview>, saved: seq<bool>)
    requires |saved| == |ps|
  {
    && SameFleetView(s, s', ctx)
    && (forall k :: 0 <= k < |ps| && saved[k] ==> HoldsRow(s', ctx, ps[k]))
    && (forall e :: !SavedFor(ps, saved, e) ==> Contents(s', ctx, e) == Contents(s, ctx, e))
  }

  ghost predicate HoldsRow(s: State, ctx: Context, p: Preview) {
    ToCommit(p) && Contents(s, ctx, p.equipmentId) == Some((p.status.GetOr(Operational), p.meterReading, p.comments))
  }

  ghost predicate SavedFor(ps: seq<Preview>, saved: seq<bool>, e: EquipmentId)
    requires |saved| == |ps|
  {
    exists k :: 0 <= k < |ps| && saved[k] && ps[k].equipmentId == e
  }

  lemma SavedStays(ps: seq<Preview>, saved: seq<bool>, p: Preview, flag: bool, e: EquipmentId)
    requires |saved| == |ps| && SavedFor(ps, saved, e)
    ensures SavedFor(ps + [p], saved + [flag], e)
  {
    var k :| 0 <= k < |ps| && saved[k] && ps[k].equipmentId == e;
    assert (ps + [p])[k].equipmentId == e && (saved + [flag])[k];
  }

  /** One more row, saved: it is in place, and no other equipment noticed. */
  lemma BatchOneSaved(s: State, s1: State, s2: State, ctx: Context, ps: seq<Preview>, saved: seq<bool>, p: Preview)
    requires |saved| == |ps| && BatchResult(s, s1, ctx, ps, saved) && DistinctCommits(ps + [p]) && ToCommit(p)
    requires SameFleetView(s1, s2, ctx)
    requires forall e :: Contents(s2, ctx, e) ==
               if e == p.equipmentId then Some((p.status.GetOr(Operational), p.meterReading, p.comments))
               else Contents(s1, ctx, e)
    ensures BatchResult(s, s2, ctx, ps + [p], saved + [true])
  {
    var all, flags := ps + [p], saved + [true];
    forall k | 0 <= k < |all| && flags[k]
      ensures HoldsRow(s2, ctx, all[k])
    {
      if k < |ps| {
        assert HoldsRow(s1, ctx, ps[k]) && all[k] == ps[k] && all[|ps|] == p;
      }
    }
    forall e | SavedFor(ps, saved, e)
      ensures SavedFor(all, flags, e)
    {
      SavedStays(ps, saved, p, true, e);
    }
    assert all[|ps|] == p && flags[|ps|];
  }

  lemma BatchOneUnsaved(s: State, s1: State, ctx: Context, ps: seq<Preview>, saved: seq<bool>, p: Preview)
    requires |saved| == |ps| && BatchResult(s, s1, ctx, ps, saved)
    ensures BatchResult(s, s1, ctx, ps + [p], saved + [false])
  {
    var all, flags := ps + [p], saved + [false];
    forall k | 0 <= k < |all| && flags[k]
      ensures HoldsRow(s1, ctx, all[k])
    {
      assert HoldsRow(s1, ctx, ps[k]) && all[k] == ps[k];
    }
    forall e | SavedFor(ps, saved, e)
      ensures SavedFor(all, flags, e)
    {
      SavedStays(ps, saved, p, false, e);
    }
  }

  /** The loop of the commit, over previews of distinct equipment. */
  lemma {:induction false} CommitAllContents(s: State, ctx: Context, ps: seq<Preview>, env: nat -> Env)
    requires DistinctCommits(ps)
    ensures BatchResult(s, CommitAll(s, ctx, ps, env).0, ctx, ps, CommitAll(s, ctx, ps, env).1)
  {
    if ps != [] {
      var n := |ps| - 1;
      var p := ps[n];
      var (s1, saved) := CommitAll(s, ctx, ps[..n], env);
      CommitAllContents(s, ctx, ps[..n], env);
      assert ps == ps[..n] + [p];
      if ToCommit(p) && RowTx(s1, ctx, p, env(n)).Committed? {
        var s2 := RowTx(s1, ctx, p, env(n)).state;
        RowTxKeepsFleet(s1, ctx, p, env(n));
        forall e
          ensures Contents(s2, ctx, e) ==
                  if e == p.equipmentId then Some((p.status.GetOr(Operational), p.meterReading, p.comments))
                  else Contents(s1, ctx, e)
        {
          RowTxContents(s1, ctx, p, env(n), e);
        }
        BatchOneSaved(s, s1, s2, ctx, ps[..n], saved, p);
      } else {
        BatchOneUnsaved(s, s1, ctx, ps[..n], saved, p);
      }
    }
  }

  /** Only the first row of an equipment can be committed. */
  lemma {:induction false} PreviewsDistinct(s: State, ctx: Context, rows: seq<SheetRow>)
    ensures DistinctCommits(Previews(s, ctx, rows))
    ensures forall p :: p in Previews(s, ctx, rows) && ToCommit(p) ==>
              p.status.Some? && p.equipmentId in Seen(s, ctx, rows)
  {
    if rows != [] {
      var n := |rows| - 1;
      PreviewsDistinct(s, ctx, rows[..n]);
      var front := Previews(s, ctx, rows[..n]);
      assert rows == rows[..n] + [rows[n]];
      assert Seen(s, ctx, rows[..n]) <= Seen(s, ctx, rows);
      assert forall i :: 0 <= i < |front| ==> front[i] in front;
      if rows[n].equipmentId.Some? {
        var e := rows[n].equipmentId.value;
        var p := PreviewOf(s, ctx, Seen(s, ctx, rows[..n]), n, e, rows[n]);
        if ToCommit(p) {
          assert rows[n] in rows;
        }
      }
    }
  }

  /** The verdict depends on the fleet view and on the row's own cell only. */
  lemma JudgeByContents(s: State, s': State, ctx: Context, seen: set<EquipmentId>, e: EquipmentId, row: SheetRow)
    requires SameFleetView(s, s', ctx)
    ensures var before := Judge(s, ctx, seen, e, row);
            var after := Judge(s', ctx, seen, e, row);
            && (Contents(s', ctx, e) == Contents(s, ctx, e) ==> after == before)
            && (before.ErrorRow? ==> after == before)
            && (!before.ErrorRow? && Contents(s', ctx, e) ==
                  Some((StatusOf(row.status).value, ParseMeter(row.meter, ctx.other), CommentsOf(row.comments)))
                ==> after == SkipRow)
  {
  }

  /** Two validations of the same sheet list the same rows. */
  lemma {:induction false} PreviewsAlign(s: State, s': State, ctx: Context, rows: seq<SheetRow>)
    requires SameFleetView(s, s', ctx)
    ensures |Previews(s', ctx, rows)| == |Previews(s, ctx, rows)|
    ensures forall k :: 0 <= k < |Previews(s, ctx, rows)| ==>
              var p := Previews(s, ctx, rows)[k];
              var p' := Previews(s', ctx, rows)[k];
              && p'.rowNum == p.rowNum && p'.equipmentId == p.equipmentId
              && (Contents(s', ctx, p.equipmentId) == Contents(s, ctx, p.equipmentId) ==> p'.action == p.action)
              && (p.action.ErrorRow? ==> p'.action == p.action)
              && (!p.action.ErrorRow? ==> p.status.Some?)
              && ((!p.action.ErrorRow? && Contents(s', ctx, p.equipmentId) ==
                     Some((p.status.GetOr(Operational), p.meterReading, p.comments))) ==> p'.action == SkipRow)
  {
    if rows != [] {
      var n := |rows| - 1;
      PreviewsAlign(s, s', ctx, rows[..n]);
      if rows[n].equipmentId.Some? {
        var e := rows[n].equipmentId.value;
        assert Seen(s, ctx, rows[..n]) == Seen(s', ctx, rows[..n]);
        JudgeByContents(s, s', ctx, Seen(s, ctx, rows[..n]), e, rows[n]);
      }
    }
  }

  /** An equipment with a CREATE, UPDATE or SKIP row has no other row of these kinds. */
  lemma {:induction false} OneVerdictPerEquipment(s: State, ctx: Context, rows: seq<SheetRow>, i: nat, j: nat)
    requires i < j < |Previews(s, ctx, rows)|
    requires !Previews(s, ctx, rows)[i].action.ErrorRow? && !Previews(s, ctx, rows)[j].action.ErrorRow?
    ensures Previews(s, ctx, rows)[i].equipmentId != Previews(s, ctx, rows)[j].equipmentId
  {
    var n := |rows| - 1;
    var front := Previews(s, ctx, rows[..n]);
    if j < |front| {
      OneVerdictPerEquipment(s, ctx, rows[..n], i, j);
    } else {
      VerdictMeansSeen(s, ctx, rows[..n], i);
    }
  }

  lemma {:induction false} VerdictMeansSeen(s: State, ctx: Context, rows: seq<SheetRow>, i: nat)
    requires i < |Previews(s, ctx, rows)| && !Previews(s, ctx, rows)[i].action.ErrorRow?
    ensures Previews(s, ctx, rows)[i].equipmentId in Seen(s, ctx, rows)
  {
    var n := |rows| - 1;
    assert rows == rows[..n] + [rows[n]];
    assert Seen(s, ctx, rows[..n]) <= Seen(s, ctx, rows);
    if i < |Previews(s, ctx, rows[..n])| {
      VerdictMeansSeen(s, ctx, rows[..n], i);
    } else {
      assert rows[n] in rows;
    }
  }

  /** An unsaved row without error belongs to an equipment that no saved row names. */
  lemma UnsavedMeansUntouched(s: State, ctx: Context, rows: seq<SheetRow>, saved: seq<bool>, k: nat)
    requires k < |Previews(s, ctx, rows)| == |saved| && !saved[k] && !Previews(s, ctx, rows)[k].action.ErrorRow?
    requires forall j :: 0 <= j < |saved| && saved[j] ==> ToCommit(Previews(s, ctx, rows)[j])
    ensures !SavedFor(Previews(s, ctx, rows), saved, Previews(s, ctx, rows)[k].equipmentId)
  {
    var ps := Previews(s, ctx, rows);
    forall j | 0 <= j < |ps| && saved[j]
      ensures ps[j].equipmentId != ps[k].equipmentId
    {
      assert ToCommit(ps[j]);
      if j < k {
        OneVerdictPerEquipment(s, ctx, rows, j, k);
      } else {
        OneVerdictPerEquipment(s, ctx, rows, k, j);
      }
    }
  }

  /**
   * Validate, commit, validate again: a row that was saved is now a SKIP, and every other
   * row, failed commits included, has the verdict it had.
   */
  lemma ImportIsIdempotent(s: State, ctx: Context, rows: seq<SheetRow>, env: nat -> Env, k: nat)
    requires k < |Previews(s, ctx, rows)|
    ensures var ps := Previews(s, ctx, rows);
            var (s', saved) := CommitAll(s, ctx, ps, env);
            var again := Previews(s', ctx, rows);
            && |again| == |ps| && again[k].equipmentId == ps[k].equipmentId
            && again[k].action == if saved[k] then SkipRow else ps[k].action
  {
    var ps := Previews(s, ctx, rows);
    var (s', saved) := CommitAll(s, ctx, ps, env);
    PreviewsDistinct(s, ctx, rows);
    CommitAllContents(s, ctx, ps, env);
    PreviewsAlign(s, s', ctx, rows);
    forall j | 0 <= j < |ps| && saved[j]
      ensures ToCommit(ps[j])
    {
      assert HoldsRow(s', ctx, ps[j]);
    }
    if saved[k] {
      assert HoldsRow(s', ctx, ps[k]);
    } else if !ps[k].action.ErrorRow? {
      UnsavedMeansUntouched(s, ctx, rows, saved, k);
    }
  }

  // -------------------------------------------------------- the verdict, spelled out

  /** The importer may see the equipment: of its tenant, and of one of its contracts when these are limited. */
  predicate Visible(s: State, ctx: Context, e: EquipmentId) {
    && e in s.equipment && s.equipment[e].tenant == ctx.who.tenant
    && match ctx.contracts
       case None => true
       case Some(allowed) =>
         match s.equipment[e].contract
         case None => false
         case Some(contract) => contract in allowed
  }

  /** The stored report of the template's date and shift says exactly what the row says. */
  ghost predicate SaysTheSame(c: Cell, row: SheetRow, ctx: Context) {
    && StatusOf(row.status) == Some(c.status) && ParseMeter(row.meter, ctx.other) == c.meterReading
    && (if Trim(row.comments) == "" then c.comments == None else c.comments == Some(Trim(row.comments)))
  }

  /** Something stands in the meter cell, but no number above zero can be read from it. */
  predicate UnreadableMeter(row: SheetRow, other: OtherNumber) {
    && ParseMeter(row.meter, other) == None
    && match row.meter
       case Blank => false
       case Num(_) => true
       case Text(t) => Trim(t) != ""
  }

  /** The verdict on a row; the errors are checked in this order. */
  lemma JudgedExactly(s: State, ctx: Context, seen: set<EquipmentId>, e: EquipmentId, row: SheetRow)
    ensures var v := Judge(s, ctx, seen, e, row);
            var cell := FindCell(s.cells, ctx.who.tenant, e, NormalizeReportDate(ctx.reportDate),
                                 if ctx.storedShift == Night && ctx.cfg.hasNightShift then Night else Day);
            && (v == ErrorRow(EquipmentNotInFleet) <==> !Visible(s, ctx, e))
            && (v == ErrorRow(DuplicateInFile) <==> Visible(s, ctx, e) && e in seen)
            && (v == ErrorRow(UnknownStatus) <==> Visible(s, ctx, e) && e !in seen && StatusOf(row.status) == None)
            && (v == ErrorRow(InvalidMeter) <==>
                  Visible(s, ctx, e) && e !in seen && StatusOf(row.status) != None && UnreadableMeter(row, ctx.other))
            && (!v.ErrorRow? ==>
                  && (v == CreateRow <==> cell == None)
                  && (v == SkipRow <==> cell.Some? && SaysTheSame(s.cells[cell.value], row, ctx))
                  && (v == UpdateRow <==> cell.Some? && !SaysTheSame(s.cells[cell.value], row, ctx)))
  {
  }

  /**
   * What a preview repeats of its row. The warning about a reading that goes back is raised
   * exactly for an accepted row with a reading below the meter.
   */
  lemma PreviewExact(s: State, ctx: Context, seen: set<EquipmentId>, rowNum: nat, e: EquipmentId, row: SheetRow)
    ensures var p := PreviewOf(s, ctx, seen, rowNum, e, row);
            && p.rowNum == rowNum && p.equipmentId == e
            && p.comments == (if Trim(row.comments) == "" then None else Some(Trim(row.comments)))
            && p.status == (if Visible(s, ctx, e) && e !in seen then StatusOf(row.status) else None)
            && p.meterReading == (if Visible(s, ctx, e) then ParseMeter(row.meter, ctx.other) else None)
            && (p.readingGoesBack <==>
                  p.action in {CreateRow, UpdateRow, SkipRow} && p.meterReading.Some?
                  && e in s.equipment && p.meterReading.value < s.equipment[e].currentMeter)
  {
  }

  /** Equipments of the fleet that rows of the sheet name. */
  ghost predicate NamedIn(s: State, ctx: Context, rows: seq<SheetRow>, e: EquipmentId) {
    Visible(s, ctx, e) && exists n :: 0 <= n < |rows| && rows[n].equipmentId == Some(e)
  }

  lemma SeenSpelled(s: State, ctx: Context, rows: seq<SheetRow>, e: EquipmentId)
    ensures e in Seen(s, ctx, rows) <==> NamedIn(s, ctx, rows, e)
  {
    if e in Seen(s, ctx, rows) {
      var r :| r in rows && r.equipmentId == Some(e);
      var n :| 0 <= n < |rows| && rows[n] == r;
    }
    if n :| 0 <= n < |rows| && rows[n].equipmentId == Some(e) && Visible(s, ctx, e) {
      assert rows[n] in rows && InFleet(s, ctx, e);
    }
  }

  function CountIds(rows: seq<SheetRow>): nat {
    if rows == [] then 0 else CountIds(rows[..|rows| - 1]) + (if rows[|rows| - 1].equipmentId == None then 0 else 1)
  }

  /** Later rows leave the previews of the earlier ones in place. */
  lemma {:induction false} PreviewsExtend(s: State, ctx: Context, rows: seq<SheetRow>, n: nat)
    requires n <= |rows|
    ensures Previews(s, ctx, rows[..n]) <= Previews(s, ctx, rows)
    decreases |rows| - n
  {
    if n < |rows| {
      PreviewsExtend(s, ctx, rows, n + 1);
      PreviewsOneMore(s, ctx, rows, n);
    } else {
      assert rows[..n] == rows;
    }
  }

  /** A row that names an equipment gets one preview, after those of the earlier rows. */
  lemma PreviewOfRow(s: State, ctx: Context, rows: seq<SheetRow>, n: nat)
    requires n < |rows| && rows[n].equipmentId.Some?
    ensures var at := CountIds(rows[..n]);
            at < |Previews(s, ctx, rows)|
            && Previews(s, ctx, rows)[at] ==
               PreviewOf(s, ctx, Seen(s, ctx, rows[..n]), n, rows[n].equipmentId.value, rows[n])
  {
    PreviewCount(s, ctx, rows[..n]);
    PreviewsOneMore(s, ctx, rows, n);
    PreviewsExtend(s, ctx, rows, n + 1);
  }

  /** Rows that name no equipment get no preview. */
  lemma {:induction false} PreviewCount(s: State, ctx: Context, rows: seq<SheetRow>)
    ensures |Previews(s, ctx, rows)| == CountIds(rows)
  {
    if rows != [] {
      PreviewCount(s, ctx, rows[..|rows| - 1]);
    }
  }

  /** A row is saved exactly when its verdict is CREATE or UPDATE and its upsert commits on the tables it meets. */
  lemma {:induction false} SavedIff(s: State, ctx: Context, ps: seq<Preview>, env: nat -> Env, k: nat)
    requires k < |ps|
    ensures var before := CommitAll(s, ctx, ps[..k], env).0;
            var p := ps[k];
            CommitAll(s, ctx, ps, env).1[k] <==>
            (p.action == CreateRow || p.action == UpdateRow) && RowTx(before, ctx, p, env(k)).Committed?
  {
    var n := |ps| - 1;
    if k < n {
      SavedIff(s, ctx, ps[..n], env, k);
      assert ps[..n][..k] == ps[..k];
    }
  }
}

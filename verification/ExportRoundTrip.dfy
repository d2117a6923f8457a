/**
 * The round trip of the sheet: what the exported template holds for a reported shift, and
 * what an import of the unedited template makes of it.
 */
module ExportRoundTrip {
  import opened Common
  import opened Tables
  import opened TextTools
  import opened MeterParser
  import opened AvailabilityReports
  import opened ExcelImport
  import OperationalSteps
  import Stops = StopTransitions
  import Trail = ReportTrail

  /** The label the exported template writes for a status. */
  function LabelOf(status: OperationalStatus): string {
    match status
    case Operational => "Operativo"
    case Standby => "Standby"
    case ReserveNoOperator => "Reserva sin Operador"
    case DownFailure => "Detenido por Falla"
    case DownMaintenance => "Detenido por Mantenimiento"
  }

  predicate IsAlpha(c: char) {
    'A' <= c <= 'Z' || 'a' <= c <= 'z'
  }

  /** A letter, or a space right before a letter. */
  predicate IsWordAt(s: string, i: nat)
    requires i < |s|
  {
    IsAlpha(s[i]) || (s[i] == ' ' && i + 1 < |s| && IsAlpha(s[i + 1]))
  }

  /** Words of letters with single spaces between them. */
  predicate IsWords(s: string) {
    s != [] && IsAlpha(s[0]) && forall i :: 0 <= i < |s| ==> IsWordAt(s, i)
  }

  predicate LowersTo(s: string, t: string) {
    |s| == |t| && forall i :: 0 <= i < |s| ==> LowerChar(s[i]) == t[i]
  }

  lemma WordsTail(s: string, k: nat)
    requires IsWords(s) && k < |s| && IsAlpha(s[k])
    ensures IsWords(s[k..])
  {
    forall i | 0 <= i < |s| - k
      ensures IsWordAt(s[k..], i)
    {
      assert IsWordAt(s, i + k);
    }
  }

  lemma {:induction false} WordsStay(s: string)
    requires IsWords(s)
    ensures Collapse(s) == s
  {
    if |s| > 1 {
      assert IsWordAt(s, 1);
      if IsAlpha(s[1]) {
        WordsTail(s, 1);
        WordsStay(s[1..]);
      } else {
        WordsTail(s, 2);
        WordsStay(s[2..]);
        assert s[1..][1..] == s[2..];
      }
    }
  }

  lemma WordsNeedNoTrim(s: string)
    requires IsWords(s)
    ensures Trim(s) == s
  {
    assert IsWordAt(s, |s| - 1);
  }

  lemma Normalized(s: string, t: string)
    requires IsWords(s) && LowersTo(s, t)
    ensures Lower(Collapse(Trim(s))) == t
  {
    WordsNeedNoTrim(s);
    WordsStay(s);
  }

  function NormalOf(status: OperationalStatus): string {
    match status
    case Operational => "operativo"
    case Standby => "standby"
    case ReserveNoOperator => "reserva sin operador"
    case DownFailure => "detenido por falla"
    case DownMaintenance => "detenido por mantenimiento"
  }

  lemma MaintenanceLabel()
    ensures IsWords("Detenido por Mantenimiento") && LowersTo("Detenido por Mantenimiento", "detenido por mantenimiento")
  {
  }

  lemma FailureLabel()
    ensures IsWords("Detenido por Falla") && LowersTo("Detenido por Falla", "detenido por falla")
  {
  }

  lemma ReserveLabel()
    ensures IsWords("Reserva sin Operador") && LowersTo("Reserva sin Operador", "reserva sin operador")
  {
  }

  lemma OperationalLabel()
    ensures IsWords("Operativo") && LowersTo("Operativo", "operativo")
  {
  }

  lemma StandbyLabel()
    ensures IsWords("Standby") && LowersTo("Standby", "standby")
  {
  }

  lemma LabelLowers(status: OperationalStatus)
    ensures IsWords(LabelOf(status)) && LowersTo(LabelOf(status), NormalOf(status))
  {
    match status
    case Operational => OperationalLabel();
    case Standby => StandbyLabel();
    case ReserveNoOperator => ReserveLabel();
    case DownFailure => FailureLabel();
    case DownMaintenance => MaintenanceLabel();
  }

  lemma NormalMeansStatus(text: string, status: OperationalStatus)
    requires Lower(Collapse(Trim(text))) == NormalOf(status)
    ensures StatusOf(text) == Some(status)
  {
  }

  /** Every label of the template is read back as the status it stands for. */
  lemma LabelReadsBack(status: OperationalStatus)
    ensures StatusOf(LabelOf(status)) == Some(status)
  {
    LabelLowers(status);
    Normalized(LabelOf(status), NormalOf(status));
    NormalMeansStatus(LabelOf(status), status);
  }

  /** The row the template holds for one equipment: its report of the shift, or blanks. */
  function ExportedRow(s: State, ctx: Context, e: EquipmentId): SheetRow {
    var existing := ExistingCell(s, ctx, e);
    if existing.None? then SheetRow(Some(e), "", Blank, "")
    else
      var c := s.cells[existing.value];
      SheetRow(Some(e), LabelOf(c.status), if c.meterReading.Some? then Num(c.meterReading.value as real) else Blank,
               c.comments.GetOr(""))
  }

  function Exported(s: State, ctx: Context, fleet: seq<EquipmentId>): seq<SheetRow> {
    seq(|fleet|, k requires 0 <= k < |fleet| => ExportedRow(s, ctx, fleet[k]))
  }

  /** The comments are what the import reads from them: absent, or trimmed and not blank. */
  predicate PlainComments(c: Cell) {
    c.comments.Some? ==> c.comments.value != [] && Trim(c.comments.value) == c.comments.value
  }

  /** The verdict an unedited row deserves. */
  function UneditedAction(s: State, ctx: Context, e: EquipmentId): Action {
    var existing := ExistingCell(s, ctx, e);
    if existing.None? then ErrorRow(UnknownStatus)
    else
      var c := s.cells[existing.value];
      if c.meterReading.Some? && c.meterReading.value <= 0 then ErrorRow(InvalidMeter)
      else if PlainComments(c) then SkipRow
      else UpdateRow
  }

  lemma WholeReadsBack(n: int)
    ensures Round(n as real) == n
  {
  }

  lemma UneditedRow(s: State, ctx: Context, seen: set<EquipmentId>, e: EquipmentId)
    requires InFleet(s, ctx, e) && e !in seen
    ensures Judge(s, ctx, seen, e, ExportedRow(s, ctx, e)) == UneditedAction(s, ctx, e)
  {
    var existing := ExistingCell(s, ctx, e);
    if existing.Some? {
      LabelReadsBack(s.cells[existing.value].status);
      WholeReadsBack(s.cells[existing.value].meterReading.GetOr(0));
    } else {
      assert Trim("") == "" && Lower(Collapse("")) == "";
    }
  }

  lemma ExportedSees(s: State, ctx: Context, fleet: seq<EquipmentId>, e: EquipmentId)
    requires e !in fleet
    ensures e !in Seen(s, ctx, Exported(s, ctx, fleet))
  {
    var rows := Exported(s, ctx, fleet);
    forall r | r in rows
      ensures r.equipmentId != Some(e)
    {
      var k :| 0 <= k < |rows| && rows[k] == r;
      assert r == ExportedRow(s, ctx, fleet[k]);
    }
  }

  /** One more exported equipment is one more preview, with the verdict it deserves. */
  lemma ExportedOneMore(s: State, ctx: Context, fleet: seq<EquipmentId>, e: EquipmentId) returns (p: Preview)
    requires InFleet(s, ctx, e) && e !in fleet
    ensures Previews(s, ctx, Exported(s, ctx, fleet + [e])) == Previews(s, ctx, Exported(s, ctx, fleet)) + [p]
    ensures p.rowNum == |fleet| && p.equipmentId == e && p.action == UneditedAction(s, ctx, e) && KeepsStatus(s, ctx, p)
  {
    var rows, all := Exported(s, ctx, fleet), Exported(s, ctx, fleet + [e]);
    assert all == rows + [ExportedRow(s, ctx, e)];
    assert all[..|fleet|] == rows;
    ExportedSees(s, ctx, fleet, e);
    UneditedRow(s, ctx, Seen(s, ctx, rows), e);
    p := PreviewOf(s, ctx, Seen(s, ctx, rows), |fleet|, e, ExportedRow(s, ctx, e));
    var existing := ExistingCell(s, ctx, e);
    if existing.Some? {
      LabelReadsBack(s.cells[existing.value].status);
    }
  }

  /** What an import of the unedited template says about the fleet, row by row. */
  ghost predicate ReadsBack(s: State, ctx: Context, fleet: seq<EquipmentId>, ps: seq<Preview>) {
    |ps| == |fleet|
    && forall k :: 0 <= k < |ps| ==>
         ps[k].rowNum == k && ps[k].equipmentId == fleet[k] && ps[k].action == UneditedAction(s, ctx, fleet[k])
         && KeepsStatus(s, ctx, ps[k])
  }

  /** The preview repeats the status of the equipment's cell. */
  predicate KeepsStatus(s: State, ctx: Context, p: Preview) {
    var existing := ExistingCell(s, ctx, p.equipmentId);
    existing.Some? ==> p.status == Some(s.cells[existing.value].status)
  }

  /**
   * Importing the unedited template: a reported equipment is a SKIP, unless its reading is
   * not positive or its comments are empty or untrimmed text; an unreported one is an error.
   */
  lemma {:induction false} ExportReadsBack(s: State, ctx: Context, fleet: seq<EquipmentId>)
    requires forall e :: e in fleet ==> InFleet(s, ctx, e)
    requires forall i, j :: 0 <= i < j < |fleet| ==> fleet[i] != fleet[j]
    ensures ReadsBack(s, ctx, fleet, Previews(s, ctx, Exported(s, ctx, fleet)))
  {
    if fleet != [] {
      var front, e := fleet[..|fleet| - 1], fleet[|fleet| - 1];
      ExportReadsBack(s, ctx, front);
      var p := ExportedOneMore(s, ctx, front, e);
      assert front + [e] == fleet;
    }
  }

  // ------------------------------------------------------ what its commit changes

  /** Editing a cell to the status it has is never a return to service, so it cannot be rejected. */
  lemma UnchangedStatusCommits(s: State, ctx: Context, p: Preview, env: Env)
    requires InFleet(s, ctx, p.equipmentId) && ExistingCell(s, ctx, p.equipmentId).Some? && KeepsStatus(s, ctx, p)
    requires forall q :: 0 <= q < |s.events| ==> s.events[q].id != env.eventId
    ensures RowTx(s, ctx, p, env).Committed?
  {
    var dto := DtoOf(ctx, p);
    var shift := EffectiveShift(ctx);
    assert ResolveShift(ctx.cfg, Some(shift)) == shift;
    assert OperationalSteps.PreviousFor(s, ctx.who, dto, shift, true) == Some(dto.status);
    Stops.FreshUpsertCommits(s, ctx.who, ctx.cfg, dto, shift, env);
  }

  /** A saved row is a new event, even when it edits a cell. */
  lemma SavedRowAddsEvent(s: State, ctx: Context, p: Preview, env: Env)
    requires RowTx(s, ctx, p, env).Committed?
    ensures |RowTx(s, ctx, p, env).state.events| == |s.events| + 1
  {
    Trail.UpsertAddsEvent(s, ctx.who, ctx.cfg, DtoOf(ctx, p), ResolveShift(ctx.cfg, Some(EffectiveShift(ctx))), env);
  }

  ghost predicate AnyToCommit(ps: seq<Preview>) {
    exists k :: 0 <= k < |ps| && ToCommit(ps[k])
  }

  lemma AnyOneMore(ps: seq<Preview>, p: Preview)
    ensures AnyToCommit(ps + [p]) <==> AnyToCommit(ps) || ToCommit(p)
  {
    assert (ps + [p])[|ps|] == p;
    if k :| 0 <= k < |ps| && ToCommit(ps[k]) {
      assert ToCommit((ps + [p])[k]);
    }
  }

  /** The row alone would be saved. */
  predicate Saves(s: State, ctx: Context, p: Preview, env: Env) {
    RowTx(s, ctx, p, env).Committed?
  }

  /** What one more row does to the tables, counted in events. */
  lemma CommitStep(s: State, ctx: Context, ps: seq<Preview>, env: nat -> Env)
    requires ps != []
    ensures var n := |ps| - 1;
            var s1, s2 := CommitAll(s, ctx, ps[..n], env).0, CommitAll(s, ctx, ps, env).0;
            && (!ToCommit(ps[n]) ==> s2 == s1) && |s2.events| >= |s1.events|
            && (ToCommit(ps[n]) && Saves(s1, ctx, ps[n], env(n)) ==> |s2.events| > |s1.events|)
  {
    var n := |ps| - 1;
    var s1 := CommitAll(s, ctx, ps[..n], env).0;
    if RowTx(s1, ctx, ps[n], env(n)).Committed? {
      SavedRowAddsEvent(s1, ctx, ps[n], env(n));
    }
  }

  /** Every row to commit would be saved from the starting tables. */
  ghost predicate AllSave(s: State, ctx: Context, ps: seq<Preview>, env: nat -> Env) {
    forall k :: 0 <= k < |ps| && ToCommit(ps[k]) ==> Saves(s, ctx, ps[k], env(k))
  }

  /** A batch of rows that would each be saved alone leaves the tables as they were only when it is empty. */
  lemma {:induction false} CommitChangesIff(s: State, ctx: Context, ps: seq<Preview>, env: nat -> Env)
    requires AllSave(s, ctx, ps, env)
    ensures if AnyToCommit(ps) then |CommitAll(s, ctx, ps, env).0.events| > |s.events|
            else CommitAll(s, ctx, ps, env).0 == s
  {
    if ps != [] {
      var n := |ps| - 1;
      CommitChangesIff(s, ctx, ps[..n], env);
      CommitStep(s, ctx, ps, env);
      assert ps == ps[..n] + [ps[n]];
      AnyOneMore(ps[..n], ps[n]);
    }
  }

  lemma UneditedRowsSave(s: State, ctx: Context, fleet: seq<EquipmentId>, ps: seq<Preview>, env: nat -> Env)
    requires forall e :: e in fleet ==> InFleet(s, ctx, e)
    requires forall n, q :: 0 <= q < |s.events| ==> s.events[q].id != env(n).eventId
    requires ReadsBack(s, ctx, fleet, ps)
    ensures AllSave(s, ctx, ps, env)
    ensures AnyToCommit(ps) <==> exists e :: e in fleet && UneditedAction(s, ctx, e) == UpdateRow
  {
    forall k | 0 <= k < |ps| && ToCommit(ps[k])
      ensures Saves(s, ctx, ps[k], env(k)) && fleet[k] in fleet && UneditedAction(s, ctx, fleet[k]) == UpdateRow
    {
      assert fleet[k] in fleet;
      UnchangedStatusCommits(s, ctx, ps[k], env(k));
    }
    if e :| e in fleet && UneditedAction(s, ctx, e) == UpdateRow {
      var k :| 0 <= k < |fleet| && fleet[k] == e;
      assert ToCommit(ps[k]);
    }
  }

  /**
   * Exporting the template, importing it unedited and committing it leaves all tables as they
   * were if and only if no equipment has a cell with a positive or no reading and comments that
   * are empty or untrimmed text.
   */
  lemma UneditedImportIff(s: State, ctx: Context, fleet: seq<EquipmentId>, env: nat -> Env)
    requires forall e :: e in fleet ==> InFleet(s, ctx, e)
    requires forall i, j :: 0 <= i < j < |fleet| ==> fleet[i] != fleet[j]
    requires forall n, q :: 0 <= q < |s.events| ==> s.events[q].id != env(n).eventId
    ensures CommitAll(s, ctx, Previews(s, ctx, Exported(s, ctx, fleet)), env).0 == s <==>
            forall e :: e in fleet ==> UneditedAction(s, ctx, e) != UpdateRow
  {
    var ps := Previews(s, ctx, Exported(s, ctx, fleet));
    ExportReadsBack(s, ctx, fleet);
    UneditedRowsSave(s, ctx, fleet, ps, env);
    CommitChangesIff(s, ctx, ps, env);
  }

  function UntrimmedContext(other: OtherNumber): Context {
    Context(Caller(1, 9), None, OpConfig(false, ClockTime(7, 0), ClockTime(7, 0)), 0, Day, other)
  }

  /** One reported equipment whose comments start with a space. */
  function UntrimmedState(): State {
    State(map[7 := Equipment(1, Some(5), true, 0, Hours)], [], [],
          [Cell(1, 7, Some(5), 9, 0, Day, Standby, None, Some(" x"))], [], [], map[], [])
  }

  lemma SpaceBeforeX()
    ensures Trim(" x") == "x" && "x" != " x"
  {
    assert TrimLeft(" x") == TrimLeft(" x"[1..]) && " x"[1..] == "x";
  }

  lemma UntrimmedIsUpdate(other: OtherNumber)
    ensures UneditedAction(UntrimmedState(), UntrimmedContext(other), 7) == UpdateRow
  {
    SpaceBeforeX();
    assert UntrimmedState().cells[..0] == [];
    assert ExistingCell(UntrimmedState(), UntrimmedContext(other), 7) == Some(0);
  }

  /** Comments that `create` stored untrimmed: the unedited template rewrites them. */
  lemma UntrimmedCommentsAreRewritten(other: OtherNumber, env: nat -> Env)
    ensures exists s: State, ctx: Context, e: EquipmentId ::
              InFleet(s, ctx, e) && CommitAll(s, ctx, Previews(s, ctx, Exported(s, ctx, [e])), env).0 != s
  {
    var s, ctx := UntrimmedState(), UntrimmedContext(other);
    UntrimmedIsUpdate(other);
    UneditedImportIff(s, ctx, [7], env);
    assert 7 in [7];
  }
}

/** Two views of one shift, written apart: the fleet board and the list of unreported equipment. */
module ShiftBoard {
  import opened Common
  import Tables

  datatype User = User(tenant: nat, isAdmin: bool, allowedContracts: seq<string>)

  datatype Equip = Equip(id: nat, tenant: nat, contract: Option<string>, isOperational: bool)

  /** A report of the queried tenant, date and shift. */
  datatype Report = Report(equipmentId: nat, status: Tables.OperationalStatus)

  datatype Tab = TabAll | TabReported | TabPending | TabExcluded
  datatype RowKind = KindReported | KindPending | KindExcluded
  datatype BoardRow = BoardRow(equip: Equip, kind: RowKind, status: Option<Tables.OperationalStatus>)

  /** The query as both operations take it; `search` is the text search over the equipment's names. */
  datatype Query = Query(contract: Option<string>, page: Option<int>, pageSize: Option<int>, search: Equip -> bool)

  datatype Paged<T> = Paged(data: seq<T>, total: nat, page: int, pageSize: int)

  // ------------------------------------------------------------------ queries

  /** An explicit contract replaces the user's own contracts. */
  predicate InScope(user: User, q: Query, operationalOnly: bool, e: Equip) {
    && e.tenant == user.tenant
    && (operationalOnly ==> e.isOperational)
    && (if q.contract.Some? then e.contract == q.contract
        else !user.isAdmin && user.allowedContracts != [] ==>
               e.contract.Some? && e.contract.value in user.allowedContracts)
    && q.search(e)
  }

  function FindMany(table: seq<Equip>, user: User, q: Query, operationalOnly: bool): seq<Equip> {
    Filter(table, (e: Equip) => InScope(user, q, operationalOnly, e))
  }

  predicate IsReported(reports: seq<Report>, e: Equip) {
    exists r :: r in reports && r.equipmentId == e.id
  }

  /** Map from the reports: the last one of an equipment wins. */
  function StatusFor(reports: seq<Report>, e: Equip): (s: Option<Tables.OperationalStatus>)
    ensures s.Some? <==> IsReported(reports, e)
  {
    if reports == [] then None
    else
      var last := reports[|reports| - 1];
      assert forall r :: r in reports <==> r in reports[..|reports| - 1] || r == last;
      if last.equipmentId == e.id then Some(last.status) else StatusFor(reports[..|reports| - 1], e)
  }

  /** slice(skip, skip + size), clamped to the list. */
  function Slice<T>(s: seq<T>, page: int, size: int): seq<T>
    requires page >= 1 && size >= 1
  {
    var skip := Min((page - 1) * size, |s|);
    var end := Min((page - 1) * size + size, |s|);
    assert (page - 1) * size >= 0;
    s[skip..end]
  }

  function PageOf(q: Query): (p: int)
    ensures p >= 1
  {
    Max(1, q.page.GetOr(1))
  }

  function PageSizeOf(q: Query): (p: int)
    ensures 1 <= p <= 100
  {
    Min(100, Max(1, q.pageSize.GetOr(25)))
  }

  // ---------------------------------------------------------------- operations

  function Unreported(reports: seq<Report>, fleet: seq<Equip>): seq<Equip> {
    Filter(fleet, (e: Equip) => !IsReported(reports, e))
  }

  function FindUnreported(table: seq<Equip>, reports: seq<Report>, user: User, q: Query): Paged<Equip> {
    var unreported := Unreported(reports, FindMany(table, user, q, true));
    Paged(Slice(unreported, PageOf(q), PageSizeOf(q)), |unreported|, PageOf(q), PageSizeOf(q))
  }

  function RowOf(reports: seq<Report>, e: Equip): BoardRow {
    if !e.isOperational then BoardRow(e, KindExcluded, None)
    else
      var status := StatusFor(reports, e);
      if status.None? then BoardRow(e, KindPending, None) else BoardRow(e, KindReported, status)
  }

  function RowsOf(reports: seq<Report>, fleet: seq<Equip>): seq<BoardRow> {
    if fleet == [] then [] else [RowOf(reports, fleet[0])] + RowsOf(reports, fleet[1..])
  }

  function AllRows(table: seq<Equip>, reports: seq<Report>, user: User, q: Query): seq<BoardRow> {
    RowsOf(reports, FindMany(table, user, q, false))
  }

  function FilterTab(rows: seq<BoardRow>, tab: Tab): seq<BoardRow> {
    match tab
    case TabAll => rows
    case TabReported => Filter(rows, (r: BoardRow) => r.kind == KindReported)
    case TabPending => Filter(rows, (r: BoardRow) => r.kind == KindPending)
    case TabExcluded => Filter(rows, (r: BoardRow) => r.kind == KindExcluded)
  }

  function BoardPage(table: seq<Equip>, reports: seq<Report>, user: User, q: Query, tab: Tab): Paged<BoardRow> {
    var filtered := FilterTab(AllRows(table, reports, user, q), tab);
    Paged(Slice(filtered, PageOf(q), PageSizeOf(q)), |filtered|, PageOf(q), PageSizeOf(q))
  }

  // ----------------------------------------------------------------- agreement

  function EquipsOf(rows: seq<BoardRow>): seq<Equip> {
    seq(|rows|, i requires 0 <= i < |rows| => rows[i].equip)
  }

  function PendingEquips(rows: seq<BoardRow>): seq<Equip> {
    EquipsOf(FilterTab(rows, TabPending))
  }

  lemma PendingCons(r: BoardRow, rows: seq<BoardRow>)
    ensures PendingEquips([r] + rows) == (if r.kind == KindPending then [r.equip] else []) + PendingEquips(rows)
  {
  }

  lemma UnreportedCons(reports: seq<Report>, e: Equip, fleet: seq<Equip>)
    ensures Unreported(reports, [e] + fleet) == (if IsReported(reports, e) then [] else [e]) + Unreported(reports, fleet)
  {
  }

  lemma RowsCons(reports: seq<Report>, e: Equip, fleet: seq<Equip>)
    ensures RowsOf(reports, [e] + fleet) == [RowOf(reports, e)] + RowsOf(reports, fleet)
  {
  }

  /** Marking the whole fleet and keeping the pending rows, or asking for the operational fleet and dropping the reported. */
  lemma {:induction false} PendingRowsAreUnreported(table: seq<Equip>, reports: seq<Report>, user: User, q: Query)
    ensures PendingEquips(AllRows(table, reports, user, q)) == Unreported(reports, FindMany(table, user, q, true))
  {
    if table != [] {
      var e := table[0];
      var all := FindMany(table[1..], user, q, false);
      var operational := FindMany(table[1..], user, q, true);
      PendingRowsAreUnreported(table[1..], reports, user, q);
      if InScope(user, q, false, e) {
        RowsCons(reports, e, all);
        PendingCons(RowOf(reports, e), RowsOf(reports, all));
        assert FindMany(table, user, q, false) == [e] + all;
        if e.isOperational {
          assert FindMany(table, user, q, true) == [e] + operational;
          UnreportedCons(reports, e, operational);
        } else {
          assert FindMany(table, user, q, true) == operational;
        }
      } else {
        assert FindMany(table, user, q, false) == all && FindMany(table, user, q, true) == operational;
      }
    }
  }

  lemma SliceOfEquips(rows: seq<BoardRow>, lo: nat, hi: nat)
    requires lo <= hi <= |rows|
    ensures EquipsOf(rows[lo..hi]) == EquipsOf(rows)[lo..hi]
  {
  }

  lemma SliceBounds(length: nat, page: int, size: int)
    requires page >= 1 && size >= 1
    ensures 0 <= Min((page - 1) * size, length) <= Min((page - 1) * size + size, length) <= length
  {
  }

  /** For equal queries both operations page through the same equipment, with the same total. */
  lemma BoardAgreesWithUnreported(table: seq<Equip>, reports: seq<Report>, user: User, q: Query)
    ensures var board := BoardPage(table, reports, user, q, TabPending);
            var unreported := FindUnreported(table, reports, user, q);
            && EquipsOf(board.data) == unreported.data
            && board.total == unreported.total && board.page == unreported.page && board.pageSize == unreported.pageSize
  {
    var filtered := FilterTab(AllRows(table, reports, user, q), TabPending);
    PendingRowsAreUnreported(table, reports, user, q);
    assert EquipsOf(filtered) == Unreported(reports, FindMany(table, user, q, true));
    assert |EquipsOf(filtered)| == |filtered|;
    var skip := (PageOf(q) - 1) * PageSizeOf(q);
    SliceBounds(|filtered|, PageOf(q), PageSizeOf(q));
    SliceOfEquips(filtered, Min(skip, |filtered|), Min(skip + PageSizeOf(q), |filtered|));
  }

  // ------------------------------------------------------------------- summary

  datatype Summary = Summary(totalFleet: nat, reportedCount: nat, unreportedCount: nat, excludedDownCount: nat,
                             completionPct: int, byStatus: map<Tables.OperationalStatus, nat>, byContract: seq<Entry>)

  datatype Entry = Entry(key: string, total: nat, reported: nat, unreported: nat)

  const NO_CONTRACT := "__none__"

  function KeyOf(r: BoardRow): string {
    r.equip.contract.GetOr(NO_CONTRACT)
  }

  function CountKind(rows: seq<BoardRow>, kind: RowKind): nat {
    if rows == [] then 0 else CountKind(rows[..|rows| - 1], kind) + (if rows[|rows| - 1].kind == kind then 1 else 0)
  }

  function CountStatus(rows: seq<BoardRow>, status: Tables.OperationalStatus): nat {
    if rows == [] then 0
    else CountStatus(rows[..|rows| - 1], status) + (if rows[|rows| - 1].status == Some(status) then 1 else 0)
  }

  function CountKey(rows: seq<BoardRow>, key: string): nat {
    if rows == [] then 0 else CountKey(rows[..|rows| - 1], key) + (if KeyOf(rows[|rows| - 1]) == key then 1 else 0)
  }

  function CountKeyKind(rows: seq<BoardRow>, key: string, kind: RowKind): nat {
    if rows == [] then 0
    else CountKeyKind(rows[..|rows| - 1], key, kind)
         + (if KeyOf(rows[|rows| - 1]) == key && rows[|rows| - 1].kind == kind then 1 else 0)
  }

  /** What the entry of a contract has to say about the rows. */
  function EntryFor(rows: seq<BoardRow>, key: string): Entry {
    Entry(key, CountKey(rows, key), CountKeyKind(rows, key, KindReported), CountKeyKind(rows, key, KindPending))
  }

  /** The row as the contract table counts it. */
  function Bump(e: Entry, r: BoardRow): Entry {
    Entry(e.key, e.total + 1, e.reported + (if r.kind == KindReported then 1 else 0),
          e.unreported + (if r.kind == KindPending then 1 else 0))
  }

  /** Map.get, change, Map.set: an existing key keeps its place. */
  function AddRow(entries: seq<Entry>, r: BoardRow): seq<Entry> {
    if entries == [] then [Bump(Entry(KeyOf(r), 0, 0, 0), r)]
    else if entries[0].key == KeyOf(r) then [Bump(entries[0], r)] + entries[1..]
    else [entries[0]] + AddRow(entries[1..], r)
  }

  function ByContract(rows: seq<BoardRow>): seq<Entry> {
    if rows == [] then [] else AddRow(ByContract(rows[..|rows| - 1]), rows[|rows| - 1])
  }

  function SumTotal(es: seq<Entry>): nat {
    if es == [] then 0 else es[0].total + SumTotal(es[1..])
  }

  function SumReported(es: seq<Entry>): nat {
    if es == [] then 0 else es[0].reported + SumReported(es[1..])
  }

  function SumUnreported(es: seq<Entry>): nat {
    if es == [] then 0 else es[0].unreported + SumUnreported(es[1..])
  }

  lemma {:induction false} AddRowSums(entries: seq<Entry>, r: BoardRow)
    ensures SumTotal(AddRow(entries, r)) == SumTotal(entries) + 1
    ensures SumReported(AddRow(entries, r)) == SumReported(entries) + (if r.kind == KindReported then 1 else 0)
    ensures SumUnreported(AddRow(entries, r)) == SumUnreported(entries) + (if r.kind == KindPending then 1 else 0)
  {
    if entries != [] {
      if entries[0].key == KeyOf(r) {
        assert AddRow(entries, r)[1..] == entries[1..];
      } else {
        AddRowSums(entries[1..], r);
        assert AddRow(entries, r)[1..] == AddRow(entries[1..], r);
      }
    }
  }

  /** The columns of the contract table add up to the counts of the rows. */
  lemma {:induction false} ContractColumnsAddUp(rows: seq<BoardRow>)
    ensures SumTotal(ByContract(rows)) == |rows|
    ensures SumReported(ByContract(rows)) == CountKind(rows, KindReported)
    ensures SumUnreported(ByContract(rows)) == CountKind(rows, KindPending)
  {
    if rows != [] {
      ContractColumnsAddUp(rows[..|rows| - 1]);
      AddRowSums(ByContract(rows[..|rows| - 1]), rows[|rows| - 1]);
    }
  }

  ghost predicate DistinctKeys(es: seq<Entry>) {
    forall i, j :: 0 <= i < j < |es| ==> es[i].key != es[j].key
  }

  predicate HasKey(entries: seq<Entry>, key: string) {
    exists e :: e in entries && e.key == key
  }

  /** The entry of a key, a zero one when there is none. */
  function Lookup(entries: seq<Entry>, key: string): Entry {
    if entries == [] then Entry(key, 0, 0, 0)
    else if entries[0].key == key then entries[0]
    else Lookup(entries[1..], key)
  }

  lemma EntriesCons(x: Entry, rest: seq<Entry>)
    ensures DistinctKeys([x] + rest) <==> DistinctKeys(rest) && !HasKey(rest, x.key)
    ensures forall key :: HasKey([x] + rest, key) <==> key == x.key || HasKey(rest, key)
  {
    var all := [x] + rest;
    assert forall k :: 0 <= k < |rest| ==> all[k + 1] == rest[k];
    assert forall i :: 0 < i < |all| ==> all[i] == rest[i - 1];
    assert forall y :: y in all <==> y == x || y in rest;
    if HasKey(rest, x.key) {
      var k :| 0 <= k < |rest| && rest[k].key == x.key;
      assert all[k + 1].key == all[0].key;
    }
    if DistinctKeys(all) {
      forall i, j | 0 <= i < j < |rest|
        ensures rest[i].key != rest[j].key
      {
        assert all[i + 1].key != all[j + 1].key;
      }
    }
    assert x in all;
  }

  /** Adding a row changes the entry of its key, or creates it, and no other entry. */
  lemma {:induction false} AddRowEntries(entries: seq<Entry>, r: BoardRow, key: string)
    requires DistinctKeys(entries)
    ensures DistinctKeys(AddRow(entries, r))
    ensures HasKey(AddRow(entries, r), key) <==> HasKey(entries, key) || key == KeyOf(r)
    ensures Lookup(AddRow(entries, r), key) ==
            if key == KeyOf(r) then Bump(Lookup(entries, key), r) else Lookup(entries, key)
  {
    if entries == [] {
      EntriesCons(AddRow(entries, r)[0], []);
      assert AddRow(entries, r) == [AddRow(entries, r)[0]] + [];
    } else {
      var x, tail := entries[0], entries[1..];
      assert entries == [x] + tail;
      EntriesCons(x, tail);
      if x.key == KeyOf(r) {
        EntriesCons(Bump(x, r), tail);
        assert ([Bump(x, r)] + tail)[1..] == tail;
      } else {
        AddRowEntries(tail, r, key);
        AddRowEntries(tail, r, x.key);
        EntriesCons(x, AddRow(tail, r));
        assert ([x] + AddRow(tail, r))[1..] == AddRow(tail, r);
      }
    }
  }

  /** One entry per contract key that occurs, holding exactly that key's counts. */
  lemma {:induction false} ContractEntriesExact(rows: seq<BoardRow>, key: string)
    ensures DistinctKeys(ByContract(rows))
    ensures HasKey(ByContract(rows), key) <==> CountKey(rows, key) > 0
    ensures Lookup(ByContract(rows), key) == EntryFor(rows, key)
  {
    if rows != [] {
      var front, last := rows[..|rows| - 1], rows[|rows| - 1];
      ContractEntriesExact(front, key);
      AddRowEntries(ByContract(front), last, key);
    }
  }

  // ---------------------------------------------------------------- the loops

  function Operational(rows: seq<BoardRow>): seq<BoardRow> {
    Filter(rows, (r: BoardRow) => r.equip.isOperational)
  }

  /** The loop over the operational rows that fills the contract map. */
  method CountByContract(rows: seq<BoardRow>) returns (entries: seq<Entry>)
    ensures entries == ByContract(rows)
  {
    entries := [];
    for k := 0 to |rows|
      invariant entries == ByContract(rows[..k])
    {
      assert rows[..k + 1][..k] == rows[..k];
      entries := AddRow(entries, rows[k]);
    }
    assert rows[..|rows|] == rows;
  }

  /** The loop over the reported rows that fills the status counters. */
  method CountByStatus(rows: seq<BoardRow>) returns (byStatus: map<Tables.OperationalStatus, nat>)
    ensures forall s :: s in byStatus && byStatus[s] == CountStatus(rows, s)
  {
    byStatus := map[Tables.Operational := 0, Tables.Standby := 0, Tables.ReserveNoOperator := 0,
                    Tables.DownFailure := 0, Tables.DownMaintenance := 0];
    assert forall s :: s in byStatus && byStatus[s] == CountStatus(rows[..0], s) by {
      forall s: Tables.OperationalStatus
        ensures s in byStatus && byStatus[s] == 0
      {
        match s case Operational => case Standby => case ReserveNoOperator => case DownFailure => case DownMaintenance =>
      }
    }
    for k := 0 to |rows|
      invariant forall s :: s in byStatus && byStatus[s] == CountStatus(rows[..k], s)
    {
      assert rows[..k + 1][..k] == rows[..k];
      if rows[k].status.Some? {
        var s := rows[k].status.value;
        byStatus := byStatus[s := byStatus[s] + 1];
      }
    }
    assert rows[..|rows|] == rows;
  }

  /** Percentage of reported equipment, half rounded up; 100 for an empty fleet. */
  function CompletionPct(reported: nat, total: nat): int {
    if total > 0 then (200 * reported + total) / (2 * total) else 100
  }

  /** The whole percentage nearest to reported / total, the larger one at a tie. */
  predicate NearestPct(reported: nat, total: nat, pct: int) {
    if total == 0 then pct == 100 else 0 <= 200 * reported + total - pct * (2 * total) < 2 * total
  }

  function SumStatuses(byStatus: map<Tables.OperationalStatus, nat>): nat
    requires forall s :: s in byStatus
  {
    byStatus[Tables.Operational] + byStatus[Tables.Standby] + byStatus[Tables.ReserveNoOperator]
    + byStatus[Tables.DownFailure] + byStatus[Tables.DownMaintenance]
  }

  lemma {:induction false} KindsPartition(rows: seq<BoardRow>)
    ensures |rows| == CountKind(rows, KindReported) + CountKind(rows, KindPending) + CountKind(rows, KindExcluded)
  {
    if rows != [] {
      KindsPartition(rows[..|rows| - 1]);
    }
  }

  /** A reported row has one status, the others none. */
  ghost predicate WellKinded(rows: seq<BoardRow>) {
    forall k :: 0 <= k < |rows| ==>
      && (rows[k].kind == KindExcluded <==> !rows[k].equip.isOperational)
      && (rows[k].kind == KindReported <==> rows[k].status.Some?)
  }

  lemma {:induction false} RowsWellKinded(reports: seq<Report>, fleet: seq<Equip>)
    ensures WellKinded(RowsOf(reports, fleet))
    ensures EquipsOf(RowsOf(reports, fleet)) == fleet
  {
    if fleet != [] {
      RowsWellKinded(reports, fleet[1..]);
      var rows := RowsOf(reports, fleet);
      assert forall k :: 0 < k < |rows| ==> rows[k] == RowsOf(reports, fleet[1..])[k - 1];
    }
  }

  /** The row says of its equipment what fleet and reports say: out of service, reported, or neither. */
  ghost predicate RightKind(reports: seq<Report>, r: BoardRow) {
    && (r.kind == KindExcluded <==> !r.equip.isOperational)
    && (r.kind == KindReported <==> r.equip.isOperational && IsReported(reports, r.equip))
    && (r.kind == KindPending <==> r.equip.isOperational && !IsReported(reports, r.equip))
    && r.status == if r.kind == KindReported then StatusFor(reports, r.equip) else None
  }

  lemma {:induction false} RowsRightKind(reports: seq<Report>, fleet: seq<Equip>)
    ensures forall r :: r in RowsOf(reports, fleet) ==> RightKind(reports, r)
  {
    if fleet != [] {
      RowsRightKind(reports, fleet[1..]);
      assert RightKind(reports, RowOf(reports, fleet[0]));
    }
  }

  /** The three kinds partition the fleet: one row per equipment in scope, its kind decided by flag and reports. */
  lemma RowsPartitionFleet(table: seq<Equip>, reports: seq<Report>, user: User, q: Query)
    ensures var rows := AllRows(table, reports, user, q);
            && EquipsOf(rows) == FindMany(table, user, q, false)
            && (forall r :: r in rows ==> RightKind(reports, r))
            && CountKind(rows, KindReported) + CountKind(rows, KindPending) + CountKind(rows, KindExcluded)
               == |FindMany(table, user, q, false)|
  {
    var fleet := FindMany(table, user, q, false);
    RowsWellKinded(reports, fleet);
    RowsRightKind(reports, fleet);
    KindsPartition(RowsOf(reports, fleet));
    assert |EquipsOf(RowsOf(reports, fleet))| == |RowsOf(reports, fleet)|;
  }

  lemma {:induction false} StatusesAddUp(rows: seq<BoardRow>)
    requires WellKinded(rows)
    ensures CountStatus(rows, Tables.Operational) + CountStatus(rows, Tables.Standby)
            + CountStatus(rows, Tables.ReserveNoOperator) + CountStatus(rows, Tables.DownFailure)
            + CountStatus(rows, Tables.DownMaintenance) == CountKind(rows, KindReported)
  {
    if rows != [] {
      var last := rows[|rows| - 1];
      StatusesAddUp(rows[..|rows| - 1]);
      assert last.kind == KindReported <==> last.status.Some?;
      if last.status.Some? {
        match last.status.value
        case Operational => case Standby => case ReserveNoOperator => case DownFailure => case DownMaintenance =>
      }
    }
  }

  lemma OperationalOneMore(front: seq<BoardRow>, r: BoardRow)
    ensures Operational(front + [r]) == Operational(front) + (if r.equip.isOperational then [r] else [])
  {
    FilterAppend(front, [r], (x: BoardRow) => x.equip.isOperational);
    assert Operational([r]) == if r.equip.isOperational then [r] else [];
  }

  lemma CountKindOneMore(front: seq<BoardRow>, r: BoardRow, kind: RowKind)
    ensures CountKind(front + [r], kind) == CountKind(front, kind) + (if r.kind == kind then 1 else 0)
  {
  }

  /** Leaving out the rows out of service leaves out exactly the excluded kind. */
  lemma {:induction false} OperationalCounts(rows: seq<BoardRow>, kind: RowKind)
    requires WellKinded(rows)
    ensures CountKind(Operational(rows), kind) == if kind == KindExcluded then 0 else CountKind(rows, kind)
  {
    if rows != [] {
      var front, last := rows[..|rows| - 1], rows[|rows| - 1];
      OperationalCounts(front, kind);
      assert rows == front + [last];
      OperationalOneMore(front, last);
      CountKindOneMore(front, last, kind);
      CountKindOneMore(Operational(front), last, kind);
      assert Operational(front) + [] == Operational(front);
      assert last.kind == KindExcluded <==> !last.equip.isOperational;
    }
  }

  lemma OperationalWellKinded(rows: seq<BoardRow>)
    requires WellKinded(rows)
    ensures WellKinded(Operational(rows))
  {
    var op := Operational(rows);
    forall k | 0 <= k < |op|
      ensures (op[k].kind == KindExcluded <==> !op[k].equip.isOperational) && (op[k].kind == KindReported <==> op[k].status.Some?)
    {
      assert op[k] in rows;
    }
  }

  /** The summary of `getShiftBoard`, and every identity a reader of the board relies on. */
  method BoardSummary(table: seq<Equip>, reports: seq<Report>, user: User, q: Query) returns (s: Summary)
    ensures forall st :: st in s.byStatus
    ensures var rows := AllRows(table, reports, user, q);
            && s.reportedCount == CountKind(rows, KindReported)
            && s.unreportedCount == CountKind(rows, KindPending)
            && s.excludedDownCount == CountKind(rows, KindExcluded)
            && s.totalFleet + s.excludedDownCount == |FindMany(table, user, q, false)|
    ensures s.reportedCount + s.unreportedCount == s.totalFleet
    ensures SumStatuses(s.byStatus) == s.reportedCount
    ensures SumTotal(s.byContract) == s.totalFleet && SumReported(s.byContract) == s.reportedCount
            && SumUnreported(s.byContract) == s.unreportedCount
    ensures var operational := Operational(AllRows(table, reports, user, q));
            && s.byContract == ByContract(operational) && DistinctKeys(s.byContract)
            && forall st :: s.byStatus[st] == CountStatus(operational, st)
    ensures NearestPct(s.reportedCount, s.totalFleet, s.completionPct)
    ensures 0 <= s.completionPct <= 100 && (s.unreportedCount == 0 ==> s.completionPct == 100)
  {
    var rows := AllRows(table, reports, user, q);
    var operational := Operational(rows);
    RowsWellKinded(reports, FindMany(table, user, q, false));
    OperationalWellKinded(rows);
    OperationalCounts(rows, KindReported);
    OperationalCounts(rows, KindPending);
    OperationalCounts(rows, KindExcluded);
    KindsPartition(rows);
    KindsPartition(operational);
    StatusesAddUp(operational);
    ContractColumnsAddUp(operational);
    ContractEntriesExact(operational, NO_CONTRACT);
    assert |rows| == |EquipsOf(rows)|;
    var byStatus := CountByStatus(operational);
    var byContract := CountByContract(operational);
    var reported := CountKind(rows, KindReported);
    s := Summary(|operational|, reported, CountKind(rows, KindPending), CountKind(rows, KindExcluded),
                 CompletionPct(reported, |operational|), byStatus, byContract);
    PctBounds(reported, |operational|);
    PctIsNearest(reported, |operational|);
  }

  lemma TimesKeepsOrder(a: int, b: int, d: nat)
    requires a <= b
    ensures a * d <= b * d
  {
  }

  lemma QuotientBelow(x: nat, d: nat, k: nat)
    requires d > 0 && x < (k + 1) * d
    ensures x / d <= k
  {
    var quotient := x / d;
    assert quotient * d <= x;
    if quotient > k {
      TimesKeepsOrder(k + 1, quotient, d);
    }
  }

  lemma QuotientAtLeast(x: nat, d: nat, k: nat)
    requires d > 0 && x >= k * d
    ensures x / d >= k
  {
    var quotient := x / d;
    assert x < quotient * d + d;
    if quotient + 1 <= k {
      TimesKeepsOrder(quotient + 1, k, d);
    }
  }

  lemma PctIsNearest(reported: nat, total: nat)
    ensures NearestPct(reported, total, CompletionPct(reported, total))
  {
  }

  lemma PctBounds(reported: nat, total: nat)
    requires reported <= total
    ensures 0 <= CompletionPct(reported, total) <= 100 && (reported == total ==> CompletionPct(reported, total) == 100)
  {
    if total > 0 {
      QuotientBelow(200 * reported + total, 2 * total, 100);
      if reported == total {
        QuotientAtLeast(200 * reported + total, 2 * total, 100);
      }
    }
  }

  /** The number of unreported equipment on the board is the total of the other operation. */
  lemma UnreportedCountAgrees(table: seq<Equip>, reports: seq<Report>, user: User, q: Query)
    ensures CountKind(AllRows(table, reports, user, q), KindPending) == FindUnreported(table, reports, user, q).total
  {
    BoardAgreesWithUnreported(table, reports, user, q);
    CountIsFilterLength(AllRows(table, reports, user, q));
  }

  lemma {:induction false} CountIsFilterLength(rows: seq<BoardRow>)
    ensures CountKind(rows, KindPending) == |FilterTab(rows, TabPending)|
  {
    if rows != [] {
      var n := |rows| - 1;
      CountIsFilterLength(rows[..n]);
      assert rows == rows[..n] + [rows[n]];
      FilterAppend(rows[..n], [rows[n]], (r: BoardRow) => r.kind == KindPending);
    }
  }

  // ------------------------------------------------------ pages and scope, spelled out

  /** The equipment the query asks for: of the tenant, matching the search, of the named contract or of the user's own. */
  predicate Asked(user: User, q: Query, e: Equip) {
    && e.tenant == user.tenant && q.search(e)
    && match q.contract
       case Some(contract) => e.contract == Some(contract)
       case None =>
         user.isAdmin || user.allowedContracts == []
         || match e.contract
            case Some(own) => own in user.allowedContracts
            case None => false
  }

  /** The fleet of the board is the equipment asked for; the other operation leaves out what is out of service. */
  lemma FleetSpelled(table: seq<Equip>, user: User, q: Query, e: Equip)
    ensures e in FindMany(table, user, q, false) <==> e in table && Asked(user, q, e)
    ensures e in FindMany(table, user, q, true) <==> e in table && Asked(user, q, e) && e.isOperational
  {
  }

  lemma SliceSpelled<T>(s: seq<T>, page: int, size: int)
    requires page >= 1 && size >= 1
    ensures (page - 1) * size >= 0
    ensures var from := (page - 1) * size;
            && |Slice(s, page, size)| == (if |s| <= from then 0 else Min(size, |s| - from))
            && forall k :: 0 <= k < |Slice(s, page, size)| ==> from + k < |s| && Slice(s, page, size)[k] == s[from + k]
  {
    assert (page - 1) * size >= 0;
  }

  /** Pages are numbered from 1 and hold 25 rows unless asked otherwise, at least 1 and at most 100. */
  lemma PagingSpelled(q: Query)
    ensures q.page == None ==> PageOf(q) == 1
    ensures q.page.Some? ==> PageOf(q) == if q.page.value < 1 then 1 else q.page.value
    ensures q.pageSize == None ==> PageSizeOf(q) == 25
    ensures q.pageSize.Some? ==> PageSizeOf(q) == if q.pageSize.value < 1 then 1
                                                  else if q.pageSize.value > 100 then 100 else q.pageSize.value
  {
  }

  /** Entry k of a page of unreported equipment is the one (page - 1) * size further on in the whole list. */
  lemma UnreportedPage(table: seq<Equip>, reports: seq<Report>, user: User, q: Query)
    ensures var all := Unreported(reports, FindMany(table, user, q, true));
            var r := FindUnreported(table, reports, user, q);
            var from := (r.page - 1) * r.pageSize;
            && r.total == |all| && from >= 0
            && |r.data| == (if |all| <= from then 0 else Min(r.pageSize, |all| - from))
            && forall k :: 0 <= k < |r.data| ==> from + k < |all| && r.data[k] == all[from + k]
  {
    SliceSpelled(Unreported(reports, FindMany(table, user, q, true)), PageOf(q), PageSizeOf(q));
  }

  /** The same for a page of the board, under any tab. */
  lemma BoardPageSpelled(table: seq<Equip>, reports: seq<Report>, user: User, q: Query, tab: Tab)
    ensures var all := FilterTab(AllRows(table, reports, user, q), tab);
            var r := BoardPage(table, reports, user, q, tab);
            var from := (r.page - 1) * r.pageSize;
            && r.total == |all| && from >= 0
            && |r.data| == (if |all| <= from then 0 else Min(r.pageSize, |all| - from))
            && forall k :: 0 <= k < |r.data| ==> from + k < |all| && r.data[k] == all[from + k]
  {
    SliceSpelled(FilterTab(AllRows(table, reports, user, q), tab), PageOf(q), PageSizeOf(q));
  }

  /** Each tab shows exactly the rows of its kind; the first one shows all. */
  lemma TabSpelled(rows: seq<BoardRow>, r: BoardRow)
    ensures FilterTab(rows, TabAll) == rows
    ensures r in FilterTab(rows, TabReported) <==> r in rows && r.kind == KindReported
    ensures r in FilterTab(rows, TabPending) <==> r in rows && r.kind == KindPending
    ensures r in FilterTab(rows, TabExcluded) <==> r in rows && r.kind == KindExcluded
  {
  }

  /** A tab keeps the order of the fleet. */
  lemma TabKeepsOrder(front: seq<BoardRow>, back: seq<BoardRow>, tab: Tab)
    ensures FilterTab(front + back, tab) == FilterTab(front, tab) + FilterTab(back, tab)
  {
    FilterAppend(front, back, (r: BoardRow) => r.kind == KindReported);
    FilterAppend(front, back, (r: BoardRow) => r.kind == KindPending);
    FilterAppend(front, back, (r: BoardRow) => r.kind == KindExcluded);
  }

  /** Every tab lists as many rows as the summary counts. */
  lemma {:induction false} TabCounts(rows: seq<BoardRow>)
    ensures |FilterTab(rows, TabReported)| == CountKind(rows, KindReported)
    ensures |FilterTab(rows, TabPending)| == CountKind(rows, KindPending)
    ensures |FilterTab(rows, TabExcluded)| == CountKind(rows, KindExcluded)
  {
    if rows != [] {
      var front, last := rows[..|rows| - 1], rows[|rows| - 1];
      TabCounts(front);
      assert rows == front + [last];
      TabKeepsOrder(front, [last], TabReported);
      TabKeepsOrder(front, [last], TabPending);
      TabKeepsOrder(front, [last], TabExcluded);
    }
  }

  /** Equipment without contract is counted under one key of its own. */
  lemma KeySpelled(r: BoardRow)
    ensures r.equip.contract == None ==> KeyOf(r) == "__none__"
    ensures r.equip.contract != None ==> Some(KeyOf(r)) == r.equip.contract
  {
  }
}

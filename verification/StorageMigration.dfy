/**
 * The migration of locally stored files: each column is paged by an id cursor while the
 * rows it migrates drop out of the very query that is being paged.
 */
module StorageMigration {
  import opened Common
  import opened TextTools

  const BATCH_SIZE := 50
  const LEGACY_PREFIX := "/uploads/"

  /** One row of a migrated column; users may lack a tenant and a value. */
  datatype Row = Row(id: nat, tenant: Option<string>, createdAt: int, value: Option<string>)

  /** Foreign functions: hash, extension, the year/month text, and whether file and database operations succeed. */
  datatype Env = Env(uuid: string -> string, extension: string -> string, yearMonth: int -> string, succeeds: nat -> bool)

  datatype Summary = Summary(migrated: nat, errors: nat, alreadyInR2: nat)

  predicate IsLegacy(r: Row) {
    r.value.Some? && StartsWith(r.value.value, LEGACY_PREFIX)
  }

  /** The path below the uploads directory; None when it is not one, or nothing follows the prefix. */
  function LegacyPath(value: string): Option<string> {
    var s := Trim(value);
    if StartsWith(s, LEGACY_PREFIX) && |s| > |LEGACY_PREFIX| then Some(s[|LEGACY_PREFIX|..]) else None
  }

  function R2Key(env: Env, tenant: string, moduleName: string, createdAt: int, legacyPath: string): string {
    "tenants/" + tenant + "/" + moduleName + "/" + env.yearMonth(createdAt) + "/"
    + env.uuid(tenant + "|" + moduleName + "|" + legacyPath) + env.extension(legacyPath)
  }

  /** `migrateOneRecord`, with the tenant check of its callers; None counts as an error and leaves the row. */
  function Migrated(env: Env, moduleName: string, r: Row): Option<Row>
    requires r.value.Some?
  {
    if r.tenant.None? then None
    else
      var path := LegacyPath(r.value.value);
      if path.None? || !env.succeeds(r.id) then None
      else Some(r.(value := Some(R2Key(env, r.tenant.value, moduleName, r.createdAt, path.value))))
  }

  /** A migrated row is not legacy any more. */
  lemma MigratedIsNotLegacy(env: Env, moduleName: string, r: Row)
    requires r.value.Some? && Migrated(env, moduleName, r).Some?
    ensures !IsLegacy(Migrated(env, moduleName, r).value) && Migrated(env, moduleName, r).value.value.Some?
  {
  }

  lemma {:induction false} StartsWithSlice(s: string, prefix: string)
    ensures StartsWith(s, prefix) <==> |prefix| <= |s| && s[..|prefix|] == prefix
  {
    if s != [] && prefix != [] {
      StartsWithSlice(s[1..], prefix[1..]);
      if |prefix| <= |s| {
        assert s[..|prefix|] == [s[0]] + s[1..][..|prefix| - 1];
        assert prefix == [prefix[0]] + prefix[1..];
      }
    }
  }

  lemma {:induction false} TrimRightKeepsPrefix(s: string, k: nat)
    requires 0 < k <= |s| && !IsSpace(s[k - 1])
    ensures k <= |TrimRight(s)| && TrimRight(s)[..k] == s[..k]
  {
    if IsSpace(s[|s| - 1]) {
      TrimRightKeepsPrefix(s[..|s| - 1], k);
    }
  }

  /** A legacy row is migrated exactly when it has a tenant, something follows the prefix, and file and database succeed. */
  lemma MigratesIff(env: Env, moduleName: string, r: Row)
    requires IsLegacy(r)
    ensures Migrated(env, moduleName, r).Some? <==>
            r.tenant.Some? && Trim(r.value.value) != "/uploads/" && env.succeeds(r.id)
  {
    var v := r.value.value;
    var n := |LEGACY_PREFIX|;
    StartsWithSlice(v, LEGACY_PREFIX);
    assert v[0] == v[..n][0] == '/' && v[n - 1] == v[..n][n - 1] == '/';
    assert TrimLeft(v) == v;
    TrimRightKeepsPrefix(v, n);
    StartsWithSlice(Trim(v), LEGACY_PREFIX);
    assert Trim(v)[..n] == LEGACY_PREFIX;
  }

  predicate NoSlash(s: string) {
    '/' !in s
  }

  lemma {:induction false} FirstPartIsKnown(a: string, x: string, b: string, y: string)
    requires NoSlash(a) && NoSlash(b) && a + "/" + x == b + "/" + y
    ensures a == b && x == y
  {
    if a == [] || b == [] {
      assert (a + "/" + x)[0] == (b + "/" + y)[0];
      assert a == b == [];
      assert (a + "/" + x)[1..] == x && (b + "/" + y)[1..] == y;
    } else {
      assert (a + "/" + x)[0] == a[0] && (b + "/" + y)[0] == b[0];
      assert (a + "/" + x)[1..] == a[1..] + "/" + x && (b + "/" + y)[1..] == b[1..] + "/" + y;
      FirstPartIsKnown(a[1..], x, b[1..], y);
    }
  }

  function KeyTail(env: Env, tenant: string, moduleName: string, createdAt: int, legacyPath: string): string {
    env.yearMonth(createdAt) + "/" + env.uuid(tenant + "|" + moduleName + "|" + legacyPath) + env.extension(legacyPath)
  }

  lemma KeyParts(env: Env, tenant: string, moduleName: string, createdAt: int, legacyPath: string)
    ensures R2Key(env, tenant, moduleName, createdAt, legacyPath) ==
            "tenants/" + (tenant + "/" + (moduleName + "/" + KeyTail(env, tenant, moduleName, createdAt, legacyPath)))
  {
  }

  /** A storage key names its tenant and module: rows of different tenants never share one. */
  lemma KeysSeparateTenants(env: Env, t: string, m: string, c: int, p: string, t': string, m': string, c': int, p': string)
    requires NoSlash(t) && NoSlash(t') && NoSlash(m) && NoSlash(m')
    requires R2Key(env, t, m, c, p) == R2Key(env, t', m', c', p')
    ensures t == t' && m == m'
  {
    KeyParts(env, t, m, c, p);
    KeyParts(env, t', m', c', p');
    var x, x' := m + "/" + KeyTail(env, t, m, c, p), m' + "/" + KeyTail(env, t', m', c', p');
    assert ("tenants/" + (t + "/" + x))[|"tenants/"|..] == t + "/" + x;
    assert ("tenants/" + (t' + "/" + x'))[|"tenants/"|..] == t' + "/" + x';
    FirstPartIsKnown(t, x, t', x');
    FirstPartIsKnown(m, KeyTail(env, t, m, c, p), m', KeyTail(env, t', m', c', p'));
  }

  // --------------------------------------------------------- the simple form

  /** What a pass does to one row, looking at nothing else. */
  function PassRow(env: Env, moduleName: string, r: Row): Row {
    if IsLegacy(r) && Migrated(env, moduleName, r).Some? then Migrated(env, moduleName, r).value else r
  }

  function Pass(env: Env, moduleName: string, rows: seq<Row>): (r: seq<Row>)
    ensures |r| == |rows|
  {
    if rows == [] then []
    else Pass(env, moduleName, rows[..|rows| - 1]) + [PassRow(env, moduleName, rows[|rows| - 1])]
  }

  function CountMigrated(env: Env, moduleName: string, rows: seq<Row>): nat {
    if rows == [] then 0
    else CountMigrated(env, moduleName, rows[..|rows| - 1])
         + (if IsLegacy(rows[|rows| - 1]) && Migrated(env, moduleName, rows[|rows| - 1]).Some? then 1 else 0)
  }

  function CountErrors(env: Env, moduleName: string, rows: seq<Row>): nat {
    if rows == [] then 0
    else CountErrors(env, moduleName, rows[..|rows| - 1])
         + (if IsLegacy(rows[|rows| - 1]) && Migrated(env, moduleName, rows[|rows| - 1]).None? then 1 else 0)
  }

  /** Ids of the legacy rows, in table order. */
  function LegacyIds(rows: seq<Row>): seq<nat> {
    if rows == [] then []
    else LegacyIds(rows[..|rows| - 1]) + (if IsLegacy(rows[|rows| - 1]) then [rows[|rows| - 1].id] else [])
  }

  // ------------------------------------------------------------- the paged query

  /** Rows come in id order, as the query returns them. */
  ghost predicate ById(rows: seq<Row>) {
    forall i, j :: 0 <= i < j < |rows| ==> rows[i].id < rows[j].id
  }

  /** Positions of the rows that match the where clause, id ascending. */
  function Matching(rows: seq<Row>, cursor: Option<nat>, from: nat): (r: seq<nat>)
    requires from <= |rows|
    ensures forall k :: 0 <= k < |r| ==> from <= r[k] < |rows|
    decreases |rows| - from
  {
    if from == |rows| then []
    else (if IsLegacy(rows[from]) && (cursor.None? || rows[from].id > cursor.value) then [from] else [])
         + Matching(rows, cursor, from + 1)
  }

  /** findMany with take: at most one batch. */
  function Page(rows: seq<Row>, cursor: Option<nat>): seq<nat> {
    var all := Matching(rows, cursor, 0);
    if |all| <= BATCH_SIZE then all else all[..BATCH_SIZE]
  }

  /** Rows up to `bound` are not above the cursor, rows from `bound` on are. */
  ghost predicate CursorAt(rows: seq<Row>, cursor: Option<nat>, bound: nat) {
    bound <= |rows|
    && (if cursor.None? then bound == 0 else
          (forall i :: 0 <= i < bound ==> rows[i].id <= cursor.value)
          && (forall i :: bound <= i < |rows| ==> rows[i].id > cursor.value))
  }

  lemma {:induction false} MatchingSkipsDone(rows: seq<Row>, cursor: Option<nat>, bound: nat, from: nat)
    requires CursorAt(rows, cursor, bound) && from <= bound
    ensures Matching(rows, cursor, from) == Matching(rows, None, bound)
    decreases bound - from
  {
    if from < bound {
      MatchingSkipsDone(rows, cursor, bound, from + 1);
    } else {
      MatchingAbove(rows, cursor, bound);
    }
  }

  lemma {:induction false} MatchingAbove(rows: seq<Row>, cursor: Option<nat>, from: nat)
    requires from <= |rows|
    requires forall i :: from <= i < |rows| ==> cursor.None? || rows[i].id > cursor.value
    ensures Matching(rows, cursor, from) == Matching(rows, None, from)
    decreases |rows| - from
  {
    if from < |rows| {
      MatchingAbove(rows, cursor, from + 1);
    }
  }

  /** The first legacy row from a position on; the length of the table when there is none. */
  function NextLegacy(rows: seq<Row>, from: nat): (n: nat)
    requires from <= |rows|
    ensures from <= n <= |rows| && (n < |rows| ==> IsLegacy(rows[n]))
    ensures forall i :: from <= i < n ==> !IsLegacy(rows[i])
    decreases |rows| - from
  {
    if from == |rows| || IsLegacy(rows[from]) then from else NextLegacy(rows, from + 1)
  }

  /** The list of matches, taken apart at its head. */
  lemma {:induction false} MatchingHead(rows: seq<Row>, from: nat)
    requires from <= |rows|
    ensures var n := NextLegacy(rows, from);
            Matching(rows, None, from) == if n == |rows| then [] else [n] + Matching(rows, None, n + 1)
    decreases |rows| - from
  {
    if from < |rows| && !IsLegacy(rows[from]) {
      MatchingHead(rows, from + 1);
      assert Matching(rows, None, from) == Matching(rows, None, from + 1);
    }
  }

  /** Where the scan stands before match k of a list that starts at `from`. */
  function StandBefore(m: seq<nat>, from: nat, k: nat): nat
    requires k <= |m|
  {
    if k == 0 then from else m[k - 1] + 1
  }

  /** Match k is the next legacy row from where the scan stands. */
  lemma {:induction false} MatchAt(rows: seq<Row>, from: nat, k: nat)
    requires from <= |rows| && k < |Matching(rows, None, from)|
    ensures var m := Matching(rows, None, from);
            StandBefore(m, from, k) <= |rows| && m[k] < |rows| && m[k] == NextLegacy(rows, StandBefore(m, from, k))
    decreases k
  {
    MatchingHead(rows, from);
    var n := NextLegacy(rows, from);
    if k > 0 {
      MatchAt(rows, n + 1, k - 1);
      ConsAt(n, Matching(rows, None, n + 1), k);
    }
  }

  lemma ConsAt(n: nat, rest: seq<nat>, k: nat)
    requires 0 < k <= |rest|
    ensures ([n] + rest)[k] == rest[k - 1]
    ensures StandBefore([n] + rest, 0, k) == StandBefore(rest, n + 1, k - 1)
  {
  }

  /** The cursor that stands at `bound`: the id of the row before it, or none at the start. */
  function CursorFor(rows: seq<Row>, bound: nat): Option<nat>
    requires bound <= |rows|
  {
    if bound == 0 then None else Some(rows[bound - 1].id)
  }

  lemma CursorAfter(rows: seq<Row>, bound: nat)
    requires ById(rows) && bound <= |rows|
    ensures CursorAt(rows, CursorFor(rows, bound), bound)
  {
  }

  // --------------------------------------------------------------- the cursor loop

  /** Between legacy rows a pass changes nothing and counts nothing. */
  lemma {:induction false} PassSkips(env: Env, moduleName: string, rows: seq<Row>, a: nat, b: nat)
    requires a <= b <= |rows| && forall i :: a <= i < b ==> !IsLegacy(rows[i])
    ensures Pass(env, moduleName, rows[..b]) == Pass(env, moduleName, rows[..a]) + rows[a..b]
    ensures CountMigrated(env, moduleName, rows[..b]) == CountMigrated(env, moduleName, rows[..a])
    ensures CountErrors(env, moduleName, rows[..b]) == CountErrors(env, moduleName, rows[..a])
    ensures LegacyIds(rows[..b]) == LegacyIds(rows[..a])
  {
    if a < b {
      PassSkips(env, moduleName, rows, a, b - 1);
      assert rows[..b][..b - 1] == rows[..b - 1];
      assert rows[a..b] == rows[a..b - 1] + [rows[b - 1]];
    }
  }

  /** One legacy row more. */
  lemma PassOne(env: Env, moduleName: string, rows: seq<Row>, i: nat)
    requires i < |rows| && IsLegacy(rows[i])
    ensures Pass(env, moduleName, rows[..i + 1]) == Pass(env, moduleName, rows[..i]) + [PassRow(env, moduleName, rows[i])]
    ensures var m := Migrated(env, moduleName, rows[i]).Some?;
            && CountMigrated(env, moduleName, rows[..i + 1]) == CountMigrated(env, moduleName, rows[..i]) + (if m then 1 else 0)
            && CountErrors(env, moduleName, rows[..i + 1]) == CountErrors(env, moduleName, rows[..i]) + (if m then 0 else 1)
            && LegacyIds(rows[..i + 1]) == LegacyIds(rows[..i]) + [rows[i].id]
  {
    assert rows[..i + 1][..i] == rows[..i];
  }

  datatype Progress = Progress(rows: seq<Row>, migrated: int, errors: int, visited: seq<nat>)

  /** The table once everything below `bound` has been passed, and what was counted on the way. */
  function ProgressAt(env: Env, moduleName: string, rows0: seq<Row>, bound: nat): Progress
    requires bound <= |rows0|
  {
    Progress(Pass(env, moduleName, rows0[..bound]) + rows0[bound..], CountMigrated(env, moduleName, rows0[..bound]),
             CountErrors(env, moduleName, rows0[..bound]), LegacyIds(rows0[..bound]))
  }

  ghost predicate PassedTo(env: Env, moduleName: string, rows0: seq<Row>, rows: seq<Row>, bound: nat,
                           migrated: int, errors: int, visited: seq<nat>) {
    bound <= |rows0| && Progress(rows, migrated, errors, visited) == ProgressAt(env, moduleName, rows0, bound)
  }

  lemma PassedSkip(env: Env, moduleName: string, rows0: seq<Row>, rows: seq<Row>, a: nat, b: nat, migrated: int,
                   errors: int, visited: seq<nat>)
    requires PassedTo(env, moduleName, rows0, rows, a, migrated, errors, visited)
    requires a <= b <= |rows0| && forall i :: a <= i < b ==> !IsLegacy(rows0[i])
    ensures PassedTo(env, moduleName, rows0, rows, b, migrated, errors, visited)
  {
    PassSkips(env, moduleName, rows0, a, b);
    assert rows0[a..] == rows0[a..b] + rows0[b..];
  }

  lemma PassedStep(env: Env, moduleName: string, rows0: seq<Row>, rows: seq<Row>, i: nat, migrated: int, errors: int,
                   visited: seq<nat>)
    requires PassedTo(env, moduleName, rows0, rows, i, migrated, errors, visited)
    requires i < |rows0| && IsLegacy(rows0[i])
    ensures |rows| == |rows0| && rows[i] == rows0[i]
    ensures var m := Migrated(env, moduleName, rows0[i]).Some?;
            PassedTo(env, moduleName, rows0, rows[i := PassRow(env, moduleName, rows0[i])], i + 1,
                     migrated + (if m then 1 else 0), errors + (if m then 0 else 1), visited + [rows0[i].id])
  {
    PassOne(env, moduleName, rows0, i);
    assert rows[i := PassRow(env, moduleName, rows0[i])] ==
           Pass(env, moduleName, rows0[..i]) + [PassRow(env, moduleName, rows0[i])] + rows0[i + 1..];
  }

  lemma {:induction false} PassAt(env: Env, moduleName: string, rows: seq<Row>, i: nat)
    requires i < |rows|
    ensures Pass(env, moduleName, rows)[i] == PassRow(env, moduleName, rows[i])
    ensures Pass(env, moduleName, rows)[i].id == rows[i].id
  {
    if i < |rows| - 1 {
      PassAt(env, moduleName, rows[..|rows| - 1], i);
    }
  }

  /** A pass keeps the ids, so the cursor means the same position before and after. */
  lemma PassedKeepsIds(env: Env, moduleName: string, rows0: seq<Row>, rows: seq<Row>, bound: nat, migrated: int,
                       errors: int, visited: seq<nat>)
    requires PassedTo(env, moduleName, rows0, rows, bound, migrated, errors, visited)
    ensures |rows| == |rows0| && rows[bound..] == rows0[bound..]
    ensures forall i :: 0 <= i < |rows| ==> rows[i].id == rows0[i].id
  {
    forall i | 0 <= i < bound
      ensures rows[i].id == rows0[i].id
    {
      PassAt(env, moduleName, rows0[..bound], i);
    }
  }

  lemma {:induction false} MatchingReadsTail(rows: seq<Row>, rows': seq<Row>, from: nat)
    requires |rows'| == |rows| && from <= |rows| && forall i :: from <= i < |rows| ==> rows'[i] == rows[i]
    ensures Matching(rows', None, from) == Matching(rows, None, from)
    decreases |rows| - from
  {
    if from < |rows| {
      MatchingReadsTail(rows, rows', from + 1);
    }
  }

  /** What the next page holds: the first unvisited legacy rows of the starting table. */
  lemma PageIsNext(env: Env, moduleName: string, rows0: seq<Row>, rows: seq<Row>, cursor: Option<nat>, bound: nat,
                   migrated: int, errors: int, visited: seq<nat>)
    requires ById(rows0) && PassedTo(env, moduleName, rows0, rows, bound, migrated, errors, visited)
    requires CursorAt(rows0, cursor, bound)
    ensures var next := Matching(rows0, None, bound);
            Page(rows, cursor) == if |next| <= BATCH_SIZE then next else next[..BATCH_SIZE]
  {
    PassedKeepsIds(env, moduleName, rows0, rows, bound, migrated, errors, visited);
    MatchingSkipsDone(rows, cursor, bound, 0);
    forall i | bound <= i < |rows|
      ensures rows[i] == rows0[i]
    {
      assert rows[bound..][i - bound] == rows0[bound..][i - bound];
    }
    MatchingReadsTail(rows0, rows, bound);
  }

  /** Up to match k there is nothing to do. */
  lemma ReachMatch(env: Env, moduleName: string, rows0: seq<Row>, rows: seq<Row>, bound: nat, k: nat, migrated: int,
                   errors: int, visited: seq<nat>)
    requires bound <= |rows0| && k < |Matching(rows0, None, bound)|
    requires PassedTo(env, moduleName, rows0, rows, StandBefore(Matching(rows0, None, bound), bound, k), migrated, errors,
                      visited)
    ensures var i := Matching(rows0, None, bound)[k];
            && i < |rows0| == |rows| && IsLegacy(rows0[i])
            && PassedTo(env, moduleName, rows0, rows, i, migrated, errors, visited)
  {
    MatchAt(rows0, bound, k);
    var at := StandBefore(Matching(rows0, None, bound), bound, k);
    PassedSkip(env, moduleName, rows0, rows, at, NextLegacy(rows0, at), migrated, errors, visited);
  }

  lemma StartsPassed(env: Env, moduleName: string, rows0: seq<Row>)
    ensures PassedTo(env, moduleName, rows0, rows0, 0, 0, 0, [])
  {
  }

  /** When nothing matches above the cursor, the whole table has been passed. */
  lemma AllPassed(env: Env, moduleName: string, rows0: seq<Row>, rows: seq<Row>, bound: nat, migrated: int, errors: int,
                  visited: seq<nat>)
    requires PassedTo(env, moduleName, rows0, rows, bound, migrated, errors, visited)
    requires Matching(rows0, None, bound) == []
    ensures rows == Pass(env, moduleName, rows0) && visited == LegacyIds(rows0)
    ensures migrated == CountMigrated(env, moduleName, rows0) && errors == CountErrors(env, moduleName, rows0)
  {
    MatchingHead(rows0, bound);
    PassedSkip(env, moduleName, rows0, rows, bound, |rows0|, migrated, errors, visited);
    assert rows0[..|rows0|] == rows0;
  }

  class LegacyColumn {
    const moduleName: string
    var rows: seq<Row>

    constructor (moduleName: string, rows: seq<Row>)
      ensures this.moduleName == moduleName && this.rows == rows
    {
      this.moduleName, this.rows := moduleName, rows;
    }

    /** One row of a page: overwritten with its new key, or counted as an error. */
    method MigrateRow(env: Env, i: nat, ghost rows0: seq<Row>, ghost visited: seq<nat>, migrated: nat, errors: nat)
      returns (migrated': nat, errors': nat, ghost visited': seq<nat>)
      requires i < |rows0| && |rows| == |rows0| && IsLegacy(rows0[i])
      requires PassedTo(env, moduleName, rows0, rows, i, migrated, errors, visited)
      modifies this`rows
      ensures PassedTo(env, moduleName, rows0, rows, i + 1, migrated', errors', visited')
    {
      PassedStep(env, moduleName, rows0, rows, i, migrated, errors, visited);
      var row := rows[i];
      migrated', errors', visited' := migrated, errors, visited + [row.id];
      var result := Migrated(env, moduleName, row);
      if result.Some? {
        rows := rows[i := result.value];
        migrated' := migrated + 1;
      } else {
        assert rows[i := row] == rows;
        errors' := errors + 1;
      }
    }

    /** One batch, from the row after `bound` to the last row of the page. */
    method MigrateBatch(env: Env, page: seq<nat>, ghost rows0: seq<Row>, ghost bound: nat, ghost visited: seq<nat>,
                        migrated: nat, errors: nat)
      returns (migrated': nat, errors': nat, ghost visited': seq<nat>)
      requires page != [] && bound <= |rows0|
      requires PassedTo(env, moduleName, rows0, rows, bound, migrated, errors, visited)
      requires page <= Matching(rows0, None, bound)
      modifies this`rows
      ensures page[|page| - 1] < |rows0|
      ensures PassedTo(env, moduleName, rows0, rows, page[|page| - 1] + 1, migrated', errors', visited')
    {
      migrated', errors', visited' := migrated, errors, visited;
      for k := 0 to |page|
        invariant PassedTo(env, moduleName, rows0, rows, StandBefore(page, bound, k), migrated', errors', visited')
      {
        assert StandBefore(page, bound, k) == StandBefore(Matching(rows0, None, bound), bound, k);
        ReachMatch(env, moduleName, rows0, rows, bound, k, migrated', errors', visited');
        migrated', errors', visited' := MigrateRow(env, page[k], rows0, visited', migrated', errors');
      }
    }

    /** The query of the loop: the first batch of rows still to visit, empty only when none is left. */
    method NextPage(env: Env, cursor: Option<nat>, ghost rows0: seq<Row>, ghost bound: nat, ghost visited: seq<nat>,
                    migrated: nat, errors: nat)
      returns (page: seq<nat>)
      requires ById(rows0) && PassedTo(env, moduleName, rows0, rows, bound, migrated, errors, visited)
      requires cursor == CursorFor(rows0, bound)
      ensures page == Page(rows, cursor)
      ensures page <= Matching(rows0, None, bound)
      ensures page == [] ==> Matching(rows0, None, bound) == []
    {
      page := Page(rows, cursor);
      CursorAfter(rows0, bound);
      PageIsNext(env, moduleName, rows0, rows, cursor, bound, migrated, errors, visited);
    }

    /** The body of the cursor loop: the cursor moves to the last id of the page before its rows are migrated. */
    method MigrateRound(env: Env, page: seq<nat>, ghost rows0: seq<Row>, ghost bound: nat, ghost visited: seq<nat>,
                        migrated: nat, errors: nat)
      returns (page': seq<nat>, migrated': nat, errors': nat, ghost visited': seq<nat>, ghost bound': nat)
      requires page != [] && ById(rows0)
      requires PassedTo(env, moduleName, rows0, rows, bound, migrated, errors, visited)
      requires page <= Matching(rows0, None, bound)
      modifies this`rows
      ensures bound < bound' <= |rows0|
      ensures PassedTo(env, moduleName, rows0, rows, bound', migrated', errors', visited')
      ensures page' <= Matching(rows0, None, bound')
      ensures page' == [] ==> Matching(rows0, None, bound') == []
    {
      var last := page[|page| - 1];
      assert last == Matching(rows0, None, bound)[|page| - 1] && |rows| == |rows0|;
      var cursor := rows[last].id;
      assert cursor == rows0[last].id by {
        PassedKeepsIds(env, moduleName, rows0, rows, bound, migrated, errors, visited);
      }
      migrated', errors', visited' := MigrateBatch(env, page, rows0, bound, visited, migrated, errors);
      bound' := last + 1;
      page' := NextPage(env, Some(cursor), rows0, bound', visited', migrated', errors');
    }

    /** The loop of the four migrate methods: page, remember the last id, migrate each row of the page. */
    method Migrate(env: Env) returns (migrated: nat, errors: nat, ghost visited: seq<nat>)
      requires ById(rows)
      modifies this`rows
      ensures rows == Pass(env, moduleName, old(rows))
      ensures migrated == CountMigrated(env, moduleName, old(rows)) && errors == CountErrors(env, moduleName, old(rows))
      ensures visited == LegacyIds(old(rows))
    {
      ghost var rows0 := rows;
      ghost var bound: nat := 0;
      migrated, errors, visited := 0, 0, [];
      StartsPassed(env, moduleName, rows0);
      var page := NextPage(env, None, rows0, bound, visited, migrated, errors);
      while page != []
        invariant PassedTo(env, moduleName, rows0, rows, bound, migrated, errors, visited)
        invariant page <= Matching(rows0, None, bound)
        invariant page == [] ==> Matching(rows0, None, bound) == []
        decreases |rows0| - bound
      {
        page, migrated, errors, visited, bound := MigrateRound(env, page, rows0, bound, visited, migrated, errors);
      }
      AllPassed(env, moduleName, rows0, rows, bound, migrated, errors, visited);
    }
  }

  // ------------------------------------------------------------- what a pass means

  /** Every legacy row is counted once, as migrated or as an error. */
  lemma {:induction false} CountsCoverLegacy(env: Env, moduleName: string, rows: seq<Row>)
    ensures CountMigrated(env, moduleName, rows) + CountErrors(env, moduleName, rows) == |LegacyIds(rows)|
  {
    if rows != [] {
      CountsCoverLegacy(env, moduleName, rows[..|rows| - 1]);
    }
  }

  lemma {:induction false} LegacyIdsBelow(rows: seq<Row>, bound: nat, i: nat)
    requires (forall j :: 0 <= j < |rows| ==> rows[j].id < bound) && i < |LegacyIds(rows)|
    ensures LegacyIds(rows)[i] < bound
  {
    if i < |LegacyIds(rows[..|rows| - 1])| {
      LegacyIdsBelow(rows[..|rows| - 1], bound, i);
    }
  }

  /** The visited ids are strictly ascending, so no row is handled twice. */
  lemma {:induction false} LegacyIdsAscending(rows: seq<Row>, i: nat, j: nat)
    requires ById(rows) && i < j < |LegacyIds(rows)|
    ensures LegacyIds(rows)[i] < LegacyIds(rows)[j]
  {
    var n := |rows| - 1;
    var rest := LegacyIds(rows[..n]);
    if j < |rest| {
      LegacyIdsAscending(rows[..n], i, j);
    } else {
      LegacyIdsBelow(rows[..n], rows[n].id, i);
    }
  }

  /** Ids of the rows a pass reports as errors. */
  function ErroredIds(env: Env, moduleName: string, rows: seq<Row>): seq<nat> {
    if rows == [] then []
    else ErroredIds(env, moduleName, rows[..|rows| - 1])
         + (if IsLegacy(rows[|rows| - 1]) && Migrated(env, moduleName, rows[|rows| - 1]).None?
            then [rows[|rows| - 1].id] else [])
  }

  /** A second pass visits exactly the rows the first one could not migrate. */
  lemma {:induction false} SecondPassVisitsErrors(env: Env, moduleName: string, rows: seq<Row>)
    ensures LegacyIds(Pass(env, moduleName, rows)) == ErroredIds(env, moduleName, rows)
    ensures |ErroredIds(env, moduleName, rows)| == CountErrors(env, moduleName, rows)
  {
    if rows != [] {
      var last := rows[|rows| - 1];
      SecondPassVisitsErrors(env, moduleName, rows[..|rows| - 1]);
      if IsLegacy(last) && Migrated(env, moduleName, last).Some? {
        MigratedIsNotLegacy(env, moduleName, last);
      }
      assert Pass(env, moduleName, rows)[..|rows| - 1] == Pass(env, moduleName, rows[..|rows| - 1]);
    }
  }

  /** Rows with a value that is not a legacy path. */
  function CountAlreadyMigrated(rows: seq<Row>): nat {
    if rows == [] then 0
    else CountAlreadyMigrated(rows[..|rows| - 1])
         + (if rows[|rows| - 1].value.Some? && !IsLegacy(rows[|rows| - 1]) then 1 else 0)
  }

  /** What the next run will report as already migrated: what this one did, and what this one migrated. */
  lemma {:induction false} AlreadyMigratedGrows(env: Env, moduleName: string, rows: seq<Row>)
    ensures CountAlreadyMigrated(Pass(env, moduleName, rows)) ==
            CountAlreadyMigrated(rows) + CountMigrated(env, moduleName, rows)
  {
    if rows != [] {
      var last := rows[|rows| - 1];
      AlreadyMigratedGrows(env, moduleName, rows[..|rows| - 1]);
      if IsLegacy(last) && Migrated(env, moduleName, last).Some? {
        MigratedIsNotLegacy(env, moduleName, last);
      }
      assert Pass(env, moduleName, rows)[..|rows| - 1] == Pass(env, moduleName, rows[..|rows| - 1]);
    }
  }

  // ------------------------------------------------------------------- the run

  /** `run`: the five columns in turn, each with its own files; None when the storage driver is not S3 compatible. */
  method RunMigration(users: LegacyColumn, attachments: LegacyColumn, documents: LegacyColumn,
                      responsible: LegacyColumn, supervisor: LegacyColumn, ofUsers: Env, ofAttachments: Env,
                      ofDocuments: Env, ofResponsible: Env, ofSupervisor: Env, s3Compatible: bool)
    returns (r: Option<Summary>)
    requires |{users, attachments, documents, responsible, supervisor}| == 5
    requires forall c :: c in {users, attachments, documents, responsible, supervisor} ==> ById(c.rows)
    modifies users, attachments, documents, responsible, supervisor
    ensures r.None? <==> !s3Compatible
    ensures r.Some? ==>
              && users.rows == Pass(ofUsers, users.moduleName, old(users.rows))
              && attachments.rows == Pass(ofAttachments, attachments.moduleName, old(attachments.rows))
              && documents.rows == Pass(ofDocuments, documents.moduleName, old(documents.rows))
              && responsible.rows == Pass(ofResponsible, responsible.moduleName, old(responsible.rows))
              && supervisor.rows == Pass(ofSupervisor, supervisor.moduleName, old(supervisor.rows))
    ensures r.None? ==> forall c :: c in {users, attachments, documents, responsible, supervisor} ==> c.rows == old(c.rows)
    ensures r.Some? ==>
              r.value.migrated == CountMigrated(ofUsers, users.moduleName, old(users.rows))
              + CountMigrated(ofAttachments, attachments.moduleName, old(attachments.rows))
              + CountMigrated(ofDocuments, documents.moduleName, old(documents.rows))
              + CountMigrated(ofResponsible, responsible.moduleName, old(responsible.rows))
              + CountMigrated(ofSupervisor, supervisor.moduleName, old(supervisor.rows))
    ensures r.Some? ==>
              r.value.migrated + r.value.errors ==
              |LegacyIds(old(users.rows))| + |LegacyIds(old(attachments.rows))| + |LegacyIds(old(documents.rows))|
              + |LegacyIds(old(responsible.rows))| + |LegacyIds(old(supervisor.rows))|
    ensures r.Some? ==>
              r.value.alreadyInR2 == CountAlreadyMigrated(old(users.rows)) + CountAlreadyMigrated(old(attachments.rows))
              + CountAlreadyMigrated(old(documents.rows)) + CountAlreadyMigrated(old(responsible.rows))
              + CountAlreadyMigrated(old(supervisor.rows))
  {
    if !s3Compatible {
      return None;
    }
    assert users != attachments && users != documents && users != responsible && users != supervisor
           && attachments != documents && attachments != responsible && attachments != supervisor
           && documents != responsible && documents != supervisor && responsible != supervisor;
    CountsCoverLegacy(ofUsers, users.moduleName, users.rows);
    CountsCoverLegacy(ofAttachments, attachments.moduleName, attachments.rows);
    CountsCoverLegacy(ofDocuments, documents.moduleName, documents.rows);
    CountsCoverLegacy(ofResponsible, responsible.moduleName, responsible.rows);
    CountsCoverLegacy(ofSupervisor, supervisor.moduleName, supervisor.rows);
    var already := CountAlreadyMigrated(users.rows) + CountAlreadyMigrated(attachments.rows)
                   + CountAlreadyMigrated(documents.rows) + CountAlreadyMigrated(responsible.rows)
                   + CountAlreadyMigrated(supervisor.rows);
    var m1, e1, _ := users.Migrate(ofUsers);
    var m2, e2, _ := attachments.Migrate(ofAttachments);
    var m3, e3, _ := documents.Migrate(ofDocuments);
    var m4, e4, _ := responsible.Migrate(ofResponsible);
    var m5, e5, _ := supervisor.Migrate(ofSupervisor);
    return Some(Summary(m1 + m2 + m3 + m4 + m5, e1 + e2 + e3 + e4 + e5, already));
  }

  // --------------------------------------------------- what is written, spelled out

  /** A migrated row keeps everything but its value, which becomes the key of its own path below /uploads/. */
  lemma MigratedValue(env: Env, moduleName: string, r: Row, path: string)
    requires r.value.Some? && Migrated(env, moduleName, r).Some? && Trim(r.value.value) == "/uploads/" + path
    ensures r.tenant.Some?
    ensures Migrated(env, moduleName, r) ==
            Some(r.(value := Some("tenants/" + r.tenant.value + "/" + moduleName + "/" + env.yearMonth(r.createdAt) + "/"
                                  + env.uuid(r.tenant.value + "|" + moduleName + "|" + path) + env.extension(path))))
  {
    assert Trim(r.value.value)[|LEGACY_PREFIX|..] == path;
  }

  /** A page holds at most fifty rows, and fewer only when no more are left. */
  lemma PageOfFifty(rows: seq<Row>, cursor: Option<nat>)
    ensures Page(rows, cursor) <= Matching(rows, cursor, 0)
    ensures |Page(rows, cursor)| == if |Matching(rows, cursor, 0)| < 50 then |Matching(rows, cursor, 0)| else 50
  {
  }

  /** A row is in the query exactly when its value begins with /uploads/. */
  lemma LegacySpelled(r: Row)
    ensures IsLegacy(r) <==> r.value.Some? && |r.value.value| >= 9 && r.value.value[..9] == "/uploads/"
  {
    if r.value.Some? {
      StartsWithSlice(r.value.value, LEGACY_PREFIX);
    }
  }
}

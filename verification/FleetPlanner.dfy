/**
 * The fleet import planner: rows that repeat an internal id get a fresh one of the same
 * prefix. Raw ids arrive normalised and in upper case; a blank one means the row is omitted.
 */
module FleetPlanner {
  import opened Common
  import opened Decimals

  predicate IsLetter(c: char) {
    'A' <= c <= 'Z'
  }

  predicate IsPrefix(s: string) {
    s != [] && forall i :: 0 <= i < |s| ==> IsLetter(s[i])
  }

  function LetterCount(s: string): (k: nat)
    ensures k <= |s|
    ensures forall i :: 0 <= i < k ==> IsLetter(s[i])
    ensures k < |s| ==> !IsLetter(s[k])
  {
    if s != [] && IsLetter(s[0]) then 1 + LetterCount(s[1..]) else 0
  }

  /** ^([A-Z]+)(\d+)$ with its two groups. */
  function Match(s: string): (r: Option<(string, string)>)
    ensures r.Some? ==> s == r.value.0 + r.value.1 && IsPrefix(r.value.0) && r.value.1 != [] && IsDigits(r.value.1)
  {
    var k := LetterCount(s);
    if 0 < k < |s| && IsDigits(s[k..]) then Some((s[..k], s[k..])) else None
  }

  /** An id of the prefix, padded to the width of the id it replaces. */
  function Candidate(prefix: string, number: nat, width: nat): string {
    prefix + PadStart(Decimal(number), width)
  }

  lemma {:induction false} LettersThenDigits(prefix: string, digits: string)
    requires (forall i :: 0 <= i < |prefix| ==> IsLetter(prefix[i])) && digits != [] && IsDigits(digits)
    ensures LetterCount(prefix + digits) == |prefix|
  {
    var s := prefix + digits;
    if prefix == [] {
      assert s[0] == digits[0];
    } else {
      assert s[1..] == prefix[1..] + digits;
      LettersThenDigits(prefix[1..], digits);
    }
  }

  /** A candidate matches the pattern, and its number reads back. */
  lemma MatchOfCandidate(prefix: string, number: nat, width: nat)
    requires IsPrefix(prefix)
    ensures var m := Match(Candidate(prefix, number, width));
            m.Some? && m.value.0 == prefix && ValueOf(m.value.1) == number
  {
    var digits := PadStart(Decimal(number), width);
    PaddedReadsBack(number, width);
    LettersThenDigits(prefix, digits);
    assert (prefix + digits)[..|prefix|] == prefix;
    assert (prefix + digits)[|prefix|..] == digits;
  }

  // ------------------------------------------------------------- specification

  predicate HasPrefix(s: string, prefix: string) {
    Match(s).Some? && Match(s).value.0 == prefix
  }

  function NumberOf(s: string): nat
    requires Match(s).Some?
  {
    ValueOf(Match(s).value.1)
  }

  /** The largest number of the prefix among the raw ids; 0 when there is none. */
  function MaxFor(raws: seq<string>, prefix: string): nat {
    if raws == [] then 0
    else
      var rest := MaxFor(raws[..|raws| - 1], prefix);
      var last := raws[|raws| - 1];
      if HasPrefix(last, prefix) then Max(rest, NumberOf(last)) else rest
  }

  predicate Repeats(raws: seq<string>, k: nat)
    requires k < |raws|
  {
    raws[k] in raws[..k]
  }

  /** How many of the first k rows got a generated id of the prefix. */
  function GeneratedBefore(raws: seq<string>, k: nat, prefix: string): nat
    requires k <= |raws|
  {
    if k == 0 then 0
    else GeneratedBefore(raws, k - 1, prefix)
         + (if Repeats(raws, k - 1) && HasPrefix(raws[k - 1], prefix) then 1 else 0)
  }

  /** Every repeated id can be resolved. */
  predicate Resolvable(raws: seq<string>, upTo: nat)
    requires upTo <= |raws|
  {
    forall k :: 0 <= k < upTo && Repeats(raws, k) ==> Match(raws[k]).Some?
  }

  /** The number of row k's generated id: past the maximum and past all earlier generated ones. */
  function FreshNumber(raws: seq<string>, k: nat): nat
    requires k < |raws| && Match(raws[k]).Some?
  {
    var prefix := Match(raws[k]).value.0;
    MaxFor(raws, prefix) + GeneratedBefore(raws, k, prefix) + 1
  }

  /** The id generated for row k: its own prefix, the fresh number, padded to its own width. */
  function FreshId(raws: seq<string>, k: nat): string
    requires k < |raws| && Match(raws[k]).Some?
  {
    var (prefix, suffix) := Match(raws[k]).value;
    Candidate(prefix, FreshNumber(raws, k), |suffix|)
  }

  /** The id of row k: its own at the first occurrence, otherwise the fresh one. */
  function PlannedId(raws: seq<string>, k: nat): string
    requires k < |raws| && (Repeats(raws, k) ==> Match(raws[k]).Some?)
  {
    if !Repeats(raws, k) then raws[k]
    else FreshId(raws, k)
  }

  lemma {:induction false} MaxForIsBound(raws: seq<string>, prefix: string, i: nat)
    requires i < |raws| && HasPrefix(raws[i], prefix)
    ensures NumberOf(raws[i]) <= MaxFor(raws, prefix)
  {
    if i < |raws| - 1 {
      MaxForIsBound(raws[..|raws| - 1], prefix, i);
    }
  }

  /** No raw id carries a generated number: it would exceed the maximum of its prefix. */
  lemma GeneratedIsNotRaw(raws: seq<string>, k: nat, i: nat)
    requires k < |raws| && i < |raws| && Match(raws[k]).Some?
    ensures FreshId(raws, k) != raws[i]
  {
    var (prefix, suffix) := Match(raws[k]).value;
    MatchOfCandidate(prefix, FreshNumber(raws, k), |suffix|);
    if Candidate(prefix, FreshNumber(raws, k), |suffix|) == raws[i] {
      MaxForIsBound(raws, prefix, i);
    }
  }

  lemma {:induction false} GeneratedBeforeGrows(raws: seq<string>, j: nat, k: nat, prefix: string)
    requires j < k <= |raws| && Repeats(raws, j) && HasPrefix(raws[j], prefix)
    ensures GeneratedBefore(raws, j, prefix) < GeneratedBefore(raws, k, prefix)
  {
    if j < k - 1 {
      GeneratedBeforeGrows(raws, j, k - 1, prefix);
    }
  }

  /** Two generated ids differ: in the prefix, or in the number. */
  lemma GeneratedDiffer(raws: seq<string>, j: nat, k: nat)
    requires j < k < |raws| && Repeats(raws, j) && Match(raws[j]).Some? && Match(raws[k]).Some?
    ensures PlannedId(raws, j) != FreshId(raws, k)
  {
    var (p, u) := Match(raws[j]).value;
    var (q, v) := Match(raws[k]).value;
    MatchOfCandidate(p, FreshNumber(raws, j), |u|);
    MatchOfCandidate(q, FreshNumber(raws, k), |v|);
    if p == q {
      GeneratedBeforeGrows(raws, j, k, p);
    }
  }

  /** The first candidate for row k is neither a raw id nor an id already assigned. */
  lemma FirstCandidateIsFree(raws: seq<string>, k: nat)
    requires k < |raws| && Resolvable(raws, k) && Match(raws[k]).Some?
    ensures var c := FreshId(raws, k);
            && c !in raws
            && (forall j :: 0 <= j < k ==> PlannedId(raws, j) != c)
  {
    var c := FreshId(raws, k);
    forall i | 0 <= i < |raws|
      ensures raws[i] != c
    {
      GeneratedIsNotRaw(raws, k, i);
    }
    forall j | 0 <= j < k
      ensures PlannedId(raws, j) != c
    {
      if Repeats(raws, j) {
        GeneratedDiffer(raws, j, k);
      }
    }
  }

  /** All planned ids are pairwise distinct. */
  lemma PlannedDistinct(raws: seq<string>, j: nat, k: nat)
    requires j < k < |raws| && Resolvable(raws, |raws|)
    ensures PlannedId(raws, j) != PlannedId(raws, k)
  {
    if Repeats(raws, k) {
      assert Resolvable(raws, k);
      FirstCandidateIsFree(raws, k);
    } else {
      assert raws[j] in raws[..k];
      if Repeats(raws, j) {
        GeneratedIsNotRaw(raws, j, k);
      }
    }
  }

  /** A raw id is assigned to an earlier row exactly when it was seen before. */
  lemma AssignedRawWasSeen(raws: seq<string>, k: nat, j: nat)
    requires j < k < |raws| && Resolvable(raws, k) && PlannedId(raws, j) == raws[k]
    ensures Repeats(raws, k)
  {
    if Repeats(raws, j) {
      GeneratedIsNotRaw(raws, j, k);
    }
    assert raws[..k][j] == raws[k];
  }

  function Distinct(raws: seq<string>): set<string> {
    set id | id in raws
  }

  function CountRepeats(raws: seq<string>, k: nat): nat
    requires k <= |raws|
  {
    if k == 0 then 0 else CountRepeats(raws, k - 1) + (if Repeats(raws, k - 1) then 1 else 0)
  }

  lemma DistinctOneMore(raws: seq<string>, k: nat)
    requires k < |raws|
    ensures Distinct(raws[..k + 1]) == Distinct(raws[..k]) + {raws[k]}
  {
    assert raws[..k + 1] == raws[..k] + [raws[k]];
  }

  lemma SizeWith(ids: set<string>, id: string)
    ensures |ids + {id}| == |ids| + (if id in ids then 0 else 1)
  {
    if id in ids {
      assert ids + {id} == ids;
    }
  }

  lemma DistinctGrows(raws: seq<string>, k: nat)
    requires 0 < k <= |raws|
    ensures |Distinct(raws[..k])| == |Distinct(raws[..k - 1])| + (if Repeats(raws, k - 1) then 0 else 1)
  {
    DistinctOneMore(raws, k - 1);
    SizeWith(Distinct(raws[..k - 1]), raws[k - 1]);
  }

  /** Generated ids = rows - distinct raw ids. */
  lemma {:induction false} RepeatsCount(raws: seq<string>, k: nat)
    requires k <= |raws|
    ensures CountRepeats(raws, k) + |Distinct(raws[..k])| == k
  {
    if k == 0 {
      assert raws[..0] == [];
    } else {
      RepeatsCount(raws, k - 1);
      DistinctGrows(raws, k);
    }
  }

  // ------------------------------------------------------------------ the plan

  datatype FleetRow = FleetRow(rawInternalId: string, internalId: string, internalIdWasGenerated: bool)

  datatype Plan = Planned(rows: seq<FleetRow>, omitted: nat) | Unresolvable(rawInternalId: string)

  /** The ids at or above `next` that the search for a candidate can still run into. */
  ghost function Ahead(taken: set<string>, prefix: string, next: nat): set<string> {
    set id | id in taken && HasPrefix(id, prefix) && NumberOf(id) >= next
  }

  /** The candidate search: count upwards until an id is neither assigned nor raw. */
  method NextFreeId(assignedIds: set<string>, rawIds: set<string>, prefix: string, first: nat, width: nat)
    returns (next: nat, candidate: string)
    requires IsPrefix(prefix)
    ensures candidate == Candidate(prefix, next, width) && next >= first
    ensures candidate !in assignedIds && candidate !in rawIds
    ensures Candidate(prefix, first, width) !in assignedIds + rawIds ==> next == first
  {
    next := first;
    candidate := Candidate(prefix, next, width);
    while candidate in assignedIds || candidate in rawIds
      invariant next >= first && candidate == Candidate(prefix, next, width)
      invariant next == first || Candidate(prefix, first, width) in assignedIds + rawIds
      decreases Ahead(assignedIds + rawIds, prefix, next)
    {
      MatchOfCandidate(prefix, next, width);
      assert candidate in Ahead(assignedIds + rawIds, prefix, next);
      next := next + 1;
      assert candidate !in Ahead(assignedIds + rawIds, prefix, next);
      candidate := Candidate(prefix, next, width);
    }
  }

  /** `Map.get` with 0 for a missing key. */
  function GetOrZero(m: map<string, nat>, key: string): nat {
    if key in m then m[key] else 0
  }

  lemma MaxForOneMore(raws: seq<string>, k: nat, prefix: string)
    requires k < |raws|
    ensures MaxFor(raws[..k + 1], prefix) ==
            if HasPrefix(raws[k], prefix) then Max(MaxFor(raws[..k], prefix), NumberOf(raws[k])) else MaxFor(raws[..k], prefix)
  {
    assert raws[..k + 1][..k] == raws[..k];
  }

  /** The first loop: which raw ids occur, and the largest number of each prefix. */
  method Survey(raws: seq<string>) returns (rawIds: set<string>, maxByPrefix: map<string, nat>)
    ensures rawIds == Distinct(raws)
    ensures forall i :: 0 <= i < |raws| && Match(raws[i]).Some? ==> Match(raws[i]).value.0 in maxByPrefix
    ensures forall p :: GetOrZero(maxByPrefix, p) == MaxFor(raws, p)
  {
    rawIds, maxByPrefix := {}, map[];
    for n := 0 to |raws|
      invariant rawIds == Distinct(raws[..n])
      invariant forall i :: 0 <= i < n && Match(raws[i]).Some? ==> Match(raws[i]).value.0 in maxByPrefix
      invariant forall p :: GetOrZero(maxByPrefix, p) == MaxFor(raws[..n], p)
    {
      ghost var before := maxByPrefix;
      DistinctOneMore(raws, n);
      rawIds := rawIds + {raws[n]};
      var m := Match(raws[n]);
      if m.Some? {
        var (prefix, suffix) := m.value;
        maxByPrefix := maxByPrefix[prefix := Max(GetOrZero(maxByPrefix, prefix), ValueOf(suffix))];
      }
      forall p
        ensures GetOrZero(maxByPrefix, p) == MaxFor(raws[..n + 1], p)
      {
        assert GetOrZero(before, p) == MaxFor(raws[..n], p);
        MaxForOneMore(raws, n, p);
      }
    }
    assert raws[..|raws|] == raws;
  }

  function AssignedIds(rows: seq<FleetRow>): set<string> {
    if rows == [] then {} else AssignedIds(rows[..|rows| - 1]) + {rows[|rows| - 1].internalId}
  }

  lemma {:induction false} AssignedTo(rows: seq<FleetRow>, id: string) returns (j: nat)
    requires id in AssignedIds(rows)
    ensures j < |rows| && rows[j].internalId == id
  {
    j := |rows| - 1;
    if rows[j].internalId != id {
      j := AssignedTo(rows[..j], id);
    }
  }

  lemma {:induction false} NotAssigned(rows: seq<FleetRow>, id: string)
    requires forall j :: 0 <= j < |rows| ==> rows[j].internalId != id
    ensures id !in AssignedIds(rows)
  {
    if rows != [] {
      NotAssigned(rows[..|rows| - 1], id);
    }
  }

  /** The plan of the first k rows. */
  function PlannedRows(raws: seq<string>, k: nat): (rows: seq<FleetRow>)
    requires k <= |raws| && Resolvable(raws, k)
    ensures |rows| == k
  {
    if k == 0 then []
    else PlannedRows(raws, k - 1) + [FleetRow(raws[k - 1], PlannedId(raws, k - 1), Repeats(raws, k - 1))]
  }

  lemma {:induction false} PlannedRowsAt(raws: seq<string>, k: nat, j: nat)
    requires j < k <= |raws| && Resolvable(raws, k)
    ensures PlannedRows(raws, k)[j] == FleetRow(raws[j], PlannedId(raws, j), Repeats(raws, j))
  {
    if j < k - 1 {
      PlannedRowsAt(raws, k - 1, j);
    }
  }

  /** The duplicate test of the loop says exactly whether the raw id occurred before. */
  lemma DuplicateTestExact(raws: seq<string>, k: nat)
    requires k < |raws| && Resolvable(raws, k)
    ensures raws[k] in AssignedIds(PlannedRows(raws, k)) ==> Repeats(raws, k)
  {
    if raws[k] in AssignedIds(PlannedRows(raws, k)) {
      var j := AssignedTo(PlannedRows(raws, k), raws[k]);
      PlannedRowsAt(raws, k, j);
      AssignedRawWasSeen(raws, k, j);
    }
  }

  lemma UnplannedIsUnassigned(raws: seq<string>, k: nat, id: string)
    requires k < |raws| && Resolvable(raws, k) && forall j :: 0 <= j < k ==> PlannedId(raws, j) != id
    ensures id !in AssignedIds(PlannedRows(raws, k))
  {
    forall j | 0 <= j < k
      ensures PlannedRows(raws, k)[j].internalId != id
    {
      PlannedRowsAt(raws, k, j);
    }
    NotAssigned(PlannedRows(raws, k), id);
  }

  lemma FreshIdIsFree(raws: seq<string>, k: nat)
    requires k < |raws| && Resolvable(raws, k) && Match(raws[k]).Some?
    ensures FreshId(raws, k) !in AssignedIds(PlannedRows(raws, k)) && FreshId(raws, k) !in Distinct(raws)
  {
    FirstCandidateIsFree(raws, k);
    UnplannedIsUnassigned(raws, k, FreshId(raws, k));
  }

  /**
   * The fresh id of a repeated row; the counter of its prefix moves by one. Every prefix met
   * here was surveyed, so the lookup of its maximum never needs a fallback.
   */
  method ResolveDuplicate(raws: seq<string>, k: nat, assignedIds: set<string>, rawIds: set<string>, max: nat,
                          generated: nat)
    returns (internalId: string, offset: nat)
    requires k < |raws| && Resolvable(raws, k) && Repeats(raws, k) && Match(raws[k]).Some?
    requires assignedIds == AssignedIds(PlannedRows(raws, k)) && rawIds == Distinct(raws)
    requires max == MaxFor(raws, Match(raws[k]).value.0)
    requires generated == GeneratedBefore(raws, k, Match(raws[k]).value.0)
    ensures internalId == PlannedId(raws, k) && offset == generated + 1
  {
    var (prefix, suffix) := Match(raws[k]).value;
    var first := max + generated + 1;
    FreshIdIsFree(raws, k);
    assert first == FreshNumber(raws, k) && Candidate(prefix, first, |suffix|) == FreshId(raws, k);
    var next: nat;
    next, internalId := NextFreeId(assignedIds, rawIds, prefix, first, |suffix|);
    offset := next - max;
  }

  /** The offsets after row k: one more for the prefix of a repeated row, the rest as before. */
  ghost predicate OffsetsAt(raws: seq<string>, k: nat, offsets: map<string, nat>)
    requires k <= |raws|
  {
    forall p :: GetOrZero(offsets, p) == GeneratedBefore(raws, k, p)
  }

  lemma OffsetsOneMore(raws: seq<string>, k: nat, offsets: map<string, nat>)
    requires k < |raws| && OffsetsAt(raws, k, offsets)
    ensures !Repeats(raws, k) ==> OffsetsAt(raws, k + 1, offsets)
    ensures Repeats(raws, k) && Match(raws[k]).Some? ==>
              var prefix := Match(raws[k]).value.0;
              OffsetsAt(raws, k + 1, offsets[prefix := GeneratedBefore(raws, k, prefix) + 1])
  {
    if Repeats(raws, k) && Match(raws[k]).Some? {
      var prefix := Match(raws[k]).value.0;
      var offsets' := offsets[prefix := GeneratedBefore(raws, k, prefix) + 1];
      forall p
        ensures GetOrZero(offsets', p) == GeneratedBefore(raws, k + 1, p)
      {
        assert GetOrZero(offsets, p) == GeneratedBefore(raws, k, p);
      }
    }
  }

  /** One pass of the second loop; no row means that the repeated id has no prefix and number. */
  method PlanRow(raws: seq<string>, k: nat, seen: set<string>, assignedIds: set<string>, rawIds: set<string>,
                 maxByPrefix: map<string, nat>, offsets: map<string, nat>)
    returns (row: Option<FleetRow>, offsets': map<string, nat>)
    requires k < |raws| && Resolvable(raws, k)
    requires seen == Distinct(raws[..k]) && assignedIds == AssignedIds(PlannedRows(raws, k)) && rawIds == Distinct(raws)
    requires forall i :: 0 <= i < |raws| && Match(raws[i]).Some? ==> Match(raws[i]).value.0 in maxByPrefix
    requires forall p :: GetOrZero(maxByPrefix, p) == MaxFor(raws, p)
    requires OffsetsAt(raws, k, offsets)
    ensures row.None? <==> Repeats(raws, k) && Match(raws[k]).None?
    ensures row.Some? ==> row.value == FleetRow(raws[k], PlannedId(raws, k), Repeats(raws, k))
    ensures row.Some? ==> OffsetsAt(raws, k + 1, offsets')
  {
    var raw := raws[k];
    offsets' := offsets;
    var duplicated := raw in seen || raw in assignedIds;
    DuplicateTestExact(raws, k);
    assert duplicated == Repeats(raws, k);
    OffsetsOneMore(raws, k, offsets);
    if !duplicated {
      return Some(FleetRow(raw, raw, false)), offsets;
    }
    if Match(raw).None? {
      return None, offsets;
    }
    var prefix := Match(raw).value.0;
    assert GetOrZero(maxByPrefix, prefix) == MaxFor(raws, prefix) && GetOrZero(offsets, prefix) == GeneratedBefore(raws, k, prefix);
    var internalId, offset := ResolveDuplicate(raws, k, assignedIds, rawIds, maxByPrefix[prefix], GetOrZero(offsets, prefix));
    return Some(FleetRow(raw, internalId, true)), offsets[prefix := offset];
  }

  lemma PlannedOneMore(raws: seq<string>, k: nat, row: FleetRow)
    requires k < |raws| && Resolvable(raws, k) && (Repeats(raws, k) ==> Match(raws[k]).Some?)
    requires row == FleetRow(raws[k], PlannedId(raws, k), Repeats(raws, k))
    ensures Resolvable(raws, k + 1)
    ensures PlannedRows(raws, k) + [row] == PlannedRows(raws, k + 1)
    ensures AssignedIds(PlannedRows(raws, k + 1)) == AssignedIds(PlannedRows(raws, k)) + {row.internalId}
  {
    assert (PlannedRows(raws, k) + [row])[..k] == PlannedRows(raws, k);
  }

  /** The second loop over the rows that carry an id. */
  method AssignIds(raws: seq<string>, omitted: nat) returns (plan: Plan)
    ensures Resolvable(raws, |raws|) ==> plan == Planned(PlannedRows(raws, |raws|), omitted)
    ensures !Resolvable(raws, |raws|) ==>
              exists k :: 0 <= k < |raws| && Resolvable(raws, k) && Repeats(raws, k)
                          && Match(raws[k]).None? && plan == Unresolvable(raws[k])
  {
    var rawIds, maxByPrefix := Survey(raws);
    var seen: set<string>, assignedIds: set<string> := {}, {};
    var offsets: map<string, nat> := map[];
    var rows: seq<FleetRow> := [];
    for k := 0 to |raws|
      invariant Resolvable(raws, k) && rows == PlannedRows(raws, k)
      invariant seen == Distinct(raws[..k]) && assignedIds == AssignedIds(rows)
      invariant OffsetsAt(raws, k, offsets)
    {
      var row, offsets' := PlanRow(raws, k, seen, assignedIds, rawIds, maxByPrefix, offsets);
      if row.None? {
        return Unresolvable(raws[k]);
      }
      offsets := offsets';
      DistinctOneMore(raws, k);
      seen := seen + {raws[k]};
      assignedIds := assignedIds + {row.value.internalId};
      PlannedOneMore(raws, k, row.value);
      rows := rows + [row.value];
    }
    return Planned(rows, omitted);
  }

  /** The rows that are not omitted for a blank id. */
  function WithId(raws: seq<string>): seq<string> {
    Filter(raws, (s: string) => s != [])
  }

  function CountGenerated(rows: seq<FleetRow>): nat {
    if rows == [] then 0
    else CountGenerated(rows[..|rows| - 1]) + (if rows[|rows| - 1].internalIdWasGenerated then 1 else 0)
  }

  lemma {:induction false} CountGeneratedIsRepeats(raws: seq<string>, rows: seq<FleetRow>)
    requires |rows| <= |raws|
    requires forall k :: 0 <= k < |rows| ==> rows[k].internalIdWasGenerated == Repeats(raws, k)
    ensures CountGenerated(rows) == CountRepeats(raws, |rows|)
  {
    if rows != [] {
      CountGeneratedIsRepeats(raws, rows[..|rows| - 1]);
    }
  }

  /**
   * `planFleetRows`: either every repeated id is resolved, and then all ids are distinct and
   * each first occurrence keeps its own, or the first one without prefix and number is reported.
   */
  method PlanFleetRows(raws: seq<string>) returns (plan: Plan)
    ensures plan.Planned? <==> Resolvable(WithId(raws), |WithId(raws)|)
    ensures plan.Planned? ==> |plan.rows| == |WithId(raws)| && plan.omitted == |raws| - |plan.rows|
    ensures plan.Planned? ==> forall k :: 0 <= k < |plan.rows| ==>
              && plan.rows[k].rawInternalId == WithId(raws)[k]
              && plan.rows[k].internalIdWasGenerated == Repeats(WithId(raws), k)
              && (!Repeats(WithId(raws), k) ==> plan.rows[k].internalId == WithId(raws)[k])
              && (Repeats(WithId(raws), k) ==> plan.rows[k].internalId !in raws)
    ensures plan.Planned? ==> forall j, k :: 0 <= j < k < |plan.rows| ==> plan.rows[j].internalId != plan.rows[k].internalId
    ensures plan.Planned? ==> CountGenerated(plan.rows) == |plan.rows| - |Distinct(WithId(raws))|
  {
    var ids := WithId(raws);
    plan := AssignIds(ids, |raws| - |ids|);
    if plan.Planned? {
      forall k | 0 <= k < |plan.rows|
        ensures plan.rows[k] == FleetRow(ids[k], PlannedId(ids, k), Repeats(ids, k))
      {
        PlannedRowsAt(ids, |ids|, k);
      }
      forall j, k | 0 <= j < k < |plan.rows|
        ensures plan.rows[j].internalId != plan.rows[k].internalId
      {
        PlannedDistinct(ids, j, k);
      }
      forall k | 0 <= k < |plan.rows| && Repeats(ids, k)
        ensures plan.rows[k].internalId !in raws
      {
        FirstCandidateIsFree(ids, k);
        MatchOfCandidate(Match(ids[k]).value.0, FreshNumber(ids, k), |Match(ids[k]).value.1|);
      }
      CountGeneratedIsRepeats(ids, plan.rows);
      RepeatsCount(ids, |ids|);
      assert ids[..|ids|] == ids;
    }
  }

  // ----------------------------------------------------- the generated id, spelled out

  /** The maximum is attained, or there is no raw id of the prefix. */
  lemma {:induction false} MaxForIsAttained(raws: seq<string>, prefix: string)
    ensures MaxFor(raws, prefix) == 0
            || exists i :: 0 <= i < |raws| && HasPrefix(raws[i], prefix) && NumberOf(raws[i]) == MaxFor(raws, prefix)
  {
    if raws != [] {
      var front := raws[..|raws| - 1];
      MaxForIsAttained(front, prefix);
      if MaxFor(front, prefix) != 0 {
        var i :| 0 <= i < |front| && HasPrefix(front[i], prefix) && NumberOf(front[i]) == MaxFor(front, prefix);
        assert raws[i] == front[i];
      }
      assert raws[|raws| - 1] == raws[|front|];
    }
  }

  /** The number with zeros in front up to the width, and never cut. */
  function Padded(number: nat, width: nat): (digits: string)
    ensures |digits| == Max(width, |Decimal(number)|)
  {
    Zeros(Max(width - |Decimal(number)|, 0)) + Decimal(number)
  }

  lemma CandidateShape(prefix: string, number: nat, width: nat)
    ensures Candidate(prefix, number, width) == prefix + Padded(number, width)
  {
    assert Zeros(0) + Decimal(number) == Decimal(number);
  }

  lemma FreshIdShape(raws: seq<string>, k: nat)
    requires k < |raws| && Match(raws[k]).Some?
    ensures FreshId(raws, k) == Match(raws[k]).value.0 + Padded(FreshNumber(raws, k), |Match(raws[k]).value.1|)
  {
    CandidateShape(Match(raws[k]).value.0, FreshNumber(raws, k), |Match(raws[k]).value.1|);
  }

  /** One more than the largest raw number of the prefix and the count of ids generated for it before. */
  lemma FreshNumberSpelled(raws: seq<string>, k: nat)
    requires k < |raws| && Match(raws[k]).Some?
    ensures FreshNumber(raws, k) ==
            MaxFor(raws, Match(raws[k]).value.0) + GeneratedBefore(raws, k, Match(raws[k]).value.0) + 1
  {
  }

  lemma RepeatedGetsFresh(raws: seq<string>, k: nat)
    requires k < |raws| && Repeats(raws, k) && Match(raws[k]).Some?
    ensures PlannedId(raws, k) == FreshId(raws, k)
  {
  }

  /**
   * A repeated id is replaced by its own letters and the fresh number, written with at least as
   * many digits as before and never cut.
   */
  lemma GeneratedIdShape(raws: seq<string>, k: nat)
    requires k < |raws| && Repeats(raws, k) && Match(raws[k]).Some?
    ensures PlannedId(raws, k) == Match(raws[k]).value.0 + Padded(FreshNumber(raws, k), |Match(raws[k]).value.1|)
  {
    RepeatedGetsFresh(raws, k);
    FreshIdShape(raws, k);
  }

  /** An id has prefix and number exactly when it is letters A to Z followed by digits, both present. */
  lemma MatchSpelled(s: string)
    ensures Match(s).Some? <==> exists p: string, d: string :: SplitsAs(s, p, d)
    ensures forall p: string, d: string :: SplitsAs(s, p, d) ==> Match(s) == Some((p, d))
  {
    if Match(s).Some? {
      assert SplitsAs(s, Match(s).value.0, Match(s).value.1);
    }
    forall p: string, d: string | SplitsAs(s, p, d)
      ensures Match(s) == Some((p, d))
    {
      assert forall i :: 0 <= i < |p| ==> p[i] in p;
      assert forall i :: 0 <= i < |d| ==> d[i] in d;
      LettersThenDigits(p, d);
      assert s[..|p|] == p && s[|p|..] == d;
    }
  }

  ghost predicate SplitsAs(s: string, p: string, d: string) {
    s == p + d && p != [] && d != [] && (forall c :: c in p ==> 'A' <= c <= 'Z') && (forall c :: c in d ==> '0' <= c <= '9')
  }
}

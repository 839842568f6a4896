/** The reconciler of backend/scripts/reconcile_lancedb_sqlite.py: what a cleanup deletes and what it
    accounts for. */
module Reconciler {
  import opened Wrappers

  const DEFAULT_SCALE := "default"

  /** A chunk row as stored; the scale may be null. */
  datatype ChunkRow = ChunkRow(fileId: string, vaultId: string, scale: Option<string>)

  /** The scale the report gives a row: null and empty count as the default. */
  function ReportedScale(row: ChunkRow): string {
    if row.scale.None? || row.scale.value == "" then DEFAULT_SCALE else row.scale.value
  }

  /** The delete filters. SQL's inequality does not match null. */
  datatype Filter = FileIn(ids: seq<string>) | VaultIs(vault: string) | ScaleNotDefault

  predicate Hits(f: Filter, row: ChunkRow) {
    match f
    case FileIn(ids) => row.fileId in ids
    case VaultIs(vault) => row.vaultId == vault
    case ScaleNotDefault => row.scale.Some? && row.scale.value != DEFAULT_SCALE
  }

  predicate HitsAny(fs: seq<Filter>, row: ChunkRow) {
    exists i | 0 <= i < |fs| :: Hits(fs[i], row)
  }

  function Count(rows: seq<ChunkRow>, fs: seq<Filter>): nat {
    if rows == [] then 0 else (if HitsAny(fs, rows[0]) then 1 else 0) + Count(rows[1..], fs)
  }

  /** The rows no filter hits, in order. */
  function Without(rows: seq<ChunkRow>, fs: seq<Filter>): seq<ChunkRow> {
    if rows == [] then []
    else (if HitsAny(fs, rows[0]) then [] else [rows[0]]) + Without(rows[1..], fs)
  }

  lemma {:induction false} CountsSplit(rows: seq<ChunkRow>, fs: seq<Filter>)
    ensures |Without(rows, fs)| + Count(rows, fs) == |rows|
  {
    if rows != [] {
      CountsSplit(rows[1..], fs);
    }
  }

  lemma HitsMore(fs: seq<Filter>, f: Filter, row: ChunkRow)
    ensures HitsAny(fs + [f], row) <==> HitsAny(fs, row) || Hits(f, row)
  {
    var more := fs + [f];
    assert more[|fs|] == f;
    if i :| 0 <= i < |fs| && Hits(fs[i], row) {
      assert more[i] == fs[i];
    }
  }

  lemma HitsOne(f: Filter, row: ChunkRow)
    ensures HitsAny([f], row) <==> Hits(f, row)
  {
    assert [f][0] == f;
  }

  /** Deleting by one more filter from what earlier deletes left is deleting by all of them. */
  lemma {:induction false} WithoutMore(rows: seq<ChunkRow>, fs: seq<Filter>, f: Filter)
    ensures Without(Without(rows, fs), [f]) == Without(rows, fs + [f])
    ensures Count(Without(rows, fs), [f]) == Count(rows, fs + [f]) - Count(rows, fs)
    ensures Count(Without(rows, fs), [f]) <= Count(rows, [f])
  {
    if rows != [] {
      WithoutMore(rows[1..], fs, f);
      HitsMore(fs, f, rows[0]);
      HitsOne(f, rows[0]);
      var rest := Without(rows[1..], fs);
      if HitsAny(fs, rows[0]) {
        assert Without(rows, fs) == rest;
      } else {
        assert Without(rows, fs) == [rows[0]] + rest;
        WithoutFirst(rows[0], rest, [f]);
      }
    }
  }

  lemma WithoutFirst(row: ChunkRow, rest: seq<ChunkRow>, fs: seq<Filter>)
    ensures Without([row] + rest, fs) == (if HitsAny(fs, row) then [] else [row]) + Without(rest, fs)
    ensures Count([row] + rest, fs) == (if HitsAny(fs, row) then 1 else 0) + Count(rest, fs)
  {
    assert ([row] + rest)[1..] == rest;
  }

  lemma {:induction false} WithoutMembers(rows: seq<ChunkRow>, fs: seq<Filter>, row: ChunkRow)
    ensures row in Without(rows, fs) <==> row in rows && !HitsAny(fs, row)
  {
    if rows != [] {
      WithoutMembers(rows[1..], fs, row);
      assert row in rows <==> row == rows[0] || row in rows[1..];
    }
  }

  lemma {:induction false} WithoutNothing(rows: seq<ChunkRow>)
    ensures Without(rows, []) == rows && Count(rows, []) == 0
  {
    if rows != [] {
      WithoutNothing(rows[1..]);
      assert rows == [rows[0]] + rows[1..];
    }
  }

  lemma {:induction false} NothingCounted(rows: seq<ChunkRow>, fs: seq<Filter>)
    requires Count(rows, fs) == 0
    ensures Without(rows, fs) == rows
  {
    if rows != [] {
      NothingCounted(rows[1..], fs);
      assert rows == [rows[0]] + rows[1..];
    }
  }

  // ---- The report ----

  /** A row of `files`. */
  datatype FileRow = FileRow(vault: string, status: string)

  type Files = map<string, FileRow>

  /** The files whose chunks the report takes to be claimed. */
  function ClaimedIds(files: Files): set<string> {
    set id | id in files && (files[id].status == "indexed" || files[id].status == "partial")
  }

  datatype Report = Report(byFile: map<string, nat>, byVault: map<string, nat>, orphanIds: seq<string>, stale: nat)

  function Tally(m: map<string, nat>, key: string): nat {
    if key in m then m[key] else 0
  }

  predicate Distinct(ids: seq<string>) {
    forall i, j | 0 <= i < j < |ids| :: ids[i] != ids[j]
  }

  ghost predicate Tallies(rows: seq<ChunkRow>, byFile: map<string, nat>, byVault: map<string, nat>) {
    && (forall id :: id in byFile <==> CountFile(rows, id) > 0)
    && (forall id :: Tally(byFile, id) == CountFile(rows, id))
    && (forall v :: Tally(byVault, v) == Count(rows, [VaultIs(v)]))
  }

  /** What a report says about the rows it was built from. */
  ghost predicate Describes(report: Report, rows: seq<ChunkRow>, claimed: set<string>, multiScale: bool) {
    && Tallies(rows, report.byFile, report.byVault)
    && Distinct(report.orphanIds)
    && (forall id :: id in report.orphanIds <==> CountFile(rows, id) > 0 && id !in claimed)
    && report.stale == if multiScale then 0 else ReportedStale(rows)
  }

  lemma {:induction false} CountAppend(rows: seq<ChunkRow>, row: ChunkRow, fs: seq<Filter>)
    ensures Count(rows + [row], fs) == Count(rows, fs) + (if HitsAny(fs, row) then 1 else 0)
  {
    if rows == [] {
      assert rows + [row] == [row];
    } else {
      assert (rows + [row])[1..] == rows[1..] + [row];
      CountAppend(rows[1..], row, fs);
    }
  }

  lemma {:induction false} StaleAppend(rows: seq<ChunkRow>, row: ChunkRow)
    ensures ReportedStale(rows + [row]) == ReportedStale(rows) + (if ReportedScale(row) != DEFAULT_SCALE then 1 else 0)
  {
    if rows == [] {
      assert rows + [row] == [row];
    } else {
      assert (rows + [row])[1..] == rows[1..] + [row];
      StaleAppend(rows[1..], row);
    }
  }

  lemma TalliesAppend(rows: seq<ChunkRow>, row: ChunkRow, byFile: map<string, nat>, byVault: map<string, nat>)
    requires Tallies(rows, byFile, byVault)
    ensures Tallies(rows + [row], byFile[row.fileId := Tally(byFile, row.fileId) + 1],
                    byVault[row.vaultId := Tally(byVault, row.vaultId) + 1])
  {
    forall id ensures CountFile(rows + [row], id) == CountFile(rows, id) + (if row.fileId == id then 1 else 0) {
      CountAppend(rows, row, [FileIn([id])]);
      HitsOne(FileIn([id]), row);
    }
    forall v
      ensures Count(rows + [row], [VaultIs(v)]) == Count(rows, [VaultIs(v)]) + (if row.vaultId == v then 1 else 0)
    {
      CountAppend(rows, row, [VaultIs(v)]);
      HitsOne(VaultIs(v), row);
    }
  }

  /** `build_report`, as far as a cleanup is planned from it. */
  method BuildReport(rows: seq<ChunkRow>, claimed: set<string>, multiScale: bool) returns (report: Report)
    ensures Describes(report, rows, claimed, multiScale)
  {
    var byFile: map<string, nat>, byVault: map<string, nat> := map[], map[];
    var stale := 0;
    for i := 0 to |rows|
      invariant Tallies(rows[..i], byFile, byVault)
      invariant stale == if multiScale then 0 else ReportedStale(rows[..i])
    {
      var row := rows[i];
      assert rows[..i + 1] == rows[..i] + [row];
      TalliesAppend(rows[..i], row, byFile, byVault);
      StaleAppend(rows[..i], row);
      byFile := byFile[row.fileId := Tally(byFile, row.fileId) + 1];
      byVault := byVault[row.vaultId := Tally(byVault, row.vaultId) + 1];
      if !multiScale && ReportedScale(row) != DEFAULT_SCALE {
        stale := stale + 1;
      }
    }
    assert rows[..|rows|] == rows;
    var orphanIds := OrphanIds(byFile.Keys, claimed);
    report := Report(byFile, byVault, orphanIds, stale);
  }

  method OrphanIds(seen: set<string>, claimed: set<string>) returns (ids: seq<string>)
    ensures Distinct(ids) && forall id :: id in ids <==> id in seen && id !in claimed
  {
    ids := [];
    var todo := seen;
    while todo != {}
      invariant todo <= seen && Distinct(ids)
      invariant forall id :: id in ids <==> id in seen && id !in todo && id !in claimed
      decreases todo
    {
      var id :| id in todo;
      if id !in claimed {
        ids := ids + [id];
      }
      todo := todo - {id};
    }
  }

  // ---- Plans ----

  datatype Plan = Plan(orphanIds: seq<string>, orphanVault: Option<string>, staleScales: bool)

  /** The deletes of a plan, in the order they run. */
  function Filters(plan: Plan): seq<Filter> {
    (if plan.orphanIds == [] then [] else [FileIn(plan.orphanIds)])
    + (if plan.orphanVault.None? then [] else [VaultIs(plan.orphanVault.value)])
    + (if plan.staleScales then [ScaleNotDefault] else [])
  }

  function CountFile(rows: seq<ChunkRow>, id: string): nat {
    Count(rows, [FileIn([id])])
  }

  /** The planned count of the orphan delete: the report's per-file counts, summed. */
  function PlannedOrphans(byFile: map<string, nat>, ids: seq<string>): nat {
    if ids == [] then 0 else Tally(byFile, ids[0]) + PlannedOrphans(byFile, ids[1..])
  }

  /** `_planned_delete_counts`, in the order the deletes run. */
  function PlannedCounts(report: Report, plan: Plan): seq<nat> {
    (if plan.orphanIds == [] then [] else [PlannedOrphans(report.byFile, plan.orphanIds)])
    + (if plan.orphanVault.None? then [] else [Tally(report.byVault, plan.orphanVault.value)])
    + (if plan.staleScales then [report.stale] else [])
  }

  function ReportedStale(rows: seq<ChunkRow>): nat {
    if rows == [] then 0
    else (if ReportedScale(rows[0]) != DEFAULT_SCALE then 1 else 0) + ReportedStale(rows[1..])
  }

  function EmptyScales(rows: seq<ChunkRow>): nat {
    if rows == [] then 0 else (if rows[0].scale == Some("") then 1 else 0) + EmptyScales(rows[1..])
  }

  lemma {:induction false} CountOneMoreFile(rows: seq<ChunkRow>, id: string, ids: seq<string>)
    requires id !in ids
    ensures Count(rows, [FileIn([id] + ids)]) == CountFile(rows, id) + Count(rows, [FileIn(ids)])
  {
    if rows != [] {
      CountOneMoreFile(rows[1..], id, ids);
      HitsOne(FileIn([id] + ids), rows[0]);
      HitsOne(FileIn([id]), rows[0]);
      HitsOne(FileIn(ids), rows[0]);
      assert rows[0].fileId in [id] + ids <==> rows[0].fileId == id || rows[0].fileId in ids;
    }
  }

  lemma {:induction false} CountNoFiles(rows: seq<ChunkRow>)
    ensures Count(rows, [FileIn([])]) == 0
  {
    if rows != [] {
      CountNoFiles(rows[1..]);
      HitsOne(FileIn([]), rows[0]);
    }
  }

  /** For distinct ids the summed per-file counts are what the one filter hits. */
  lemma {:induction false} PlannedOrphansExact(rows: seq<ChunkRow>, byFile: map<string, nat>, ids: seq<string>)
    requires Distinct(ids) && forall id :: Tally(byFile, id) == CountFile(rows, id)
    ensures PlannedOrphans(byFile, ids) == Count(rows, [FileIn(ids)])
    decreases |ids|
  {
    if ids == [] {
      CountNoFiles(rows);
    } else {
      PlannedOrphansExact(rows, byFile, ids[1..]);
      CountOneMoreFile(rows, ids[0], ids[1..]);
      assert [ids[0]] + ids[1..] == ids;
    }
  }

  /** The stale-scale delete hits what the report counted plus every row whose scale is empty, so the
      two agree exactly when there is none. */
  lemma {:induction false} PlannedStaleExact(rows: seq<ChunkRow>)
    ensures Count(rows, [ScaleNotDefault]) == ReportedStale(rows) + EmptyScales(rows)
    ensures Count(rows, [ScaleNotDefault]) == ReportedStale(rows) <==> EmptyScales(rows) == 0
  {
    if rows != [] {
      PlannedStaleExact(rows[1..]);
      HitsOne(ScaleNotDefault, rows[0]);
    }
  }

  /** How far a delete may exceed its planned count: the rows whose scale is empty. */
  function Excess(f: Filter, rows: seq<ChunkRow>): nat {
    if f.ScaleNotDefault? then EmptyScales(rows) else 0
  }

  /** Every planned count is what its filter hits, except for rows with an empty scale. */
  lemma PlannedExact(report: Report, rows: seq<ChunkRow>, claimed: set<string>, plan: Plan)
    requires Describes(report, rows, claimed, false) || (Describes(report, rows, claimed, true) && !plan.staleScales)
    requires Distinct(plan.orphanIds)
    ensures var fs, counts := Filters(plan), PlannedCounts(report, plan);
            && |counts| == |fs|
            && forall i | 0 <= i < |fs| :: Count(rows, [fs[i]]) == counts[i] + Excess(fs[i], rows)
  {
    PlannedOrphansExact(rows, report.byFile, plan.orphanIds);
    PlannedStaleExact(rows);
  }

  // ---- The table ----

  function Sum(counts: seq<nat>): nat {
    if counts == [] then 0 else Sum(counts[..|counts| - 1]) + counts[|counts| - 1]
  }

  class Table {
    var rows: seq<ChunkRow>

    constructor (rows: seq<ChunkRow>)
      ensures this.rows == rows
    {
      this.rows := rows;
    }

    /** `_delete_with_count`. */
    method DeleteWithCount(f: Filter) returns (count: nat, remaining: nat)
      modifies this
      ensures rows == Without(old(rows), [f])
      ensures count == Count(old(rows), [f]) && remaining == 0
    {
      count := Count(rows, [f]);
      if count > 0 {
        rows := Without(rows, [f]);
      } else {
        NothingCounted(rows, [f]);
      }
      remaining := Count(rows, [f]);
      ghost var kept := rows;
      NoneLeft(old(rows), f);
    }

    /** One more planned delete after those of `done`. */
    method DeleteNext(f: Filter, counts: seq<nat>, ghost start: seq<ChunkRow>, ghost done: seq<Filter>)
      returns (deleted: seq<nat>)
      requires rows == Without(start, done) && Accounts(start, done, counts)
      modifies this
      ensures rows == Without(start, done + [f]) && Accounts(start, done + [f], deleted)
    {
      var count, _ := DeleteWithCount(f);
      WithoutMore(start, done, f);
      SumAppend(counts, count);
      deleted := counts + [count];
    }

    /** `apply_cleanup`: the planned deletes, one after the other. */
    method ApplyCleanup(plan: Plan) returns (deleted: seq<nat>)
      modifies this
      ensures rows == Without(old(rows), Filters(plan))
      ensures Accounts(old(rows), Filters(plan), deleted)
    {
      deleted := [];
      ghost var done: seq<Filter> := [];
      WithoutNothing(rows);
      if plan.orphanIds != [] {
        deleted := DeleteNext(FileIn(plan.orphanIds), deleted, old(rows), done);
        done := done + [FileIn(plan.orphanIds)];
      }
      if plan.orphanVault.Some? {
        deleted := DeleteNext(VaultIs(plan.orphanVault.value), deleted, old(rows), done);
        done := done + [VaultIs(plan.orphanVault.value)];
      }
      if plan.staleScales {
        deleted := DeleteNext(ScaleNotDefault, deleted, old(rows), done);
        done := done + [ScaleNotDefault];
      }
      assert done == Filters(plan);
    }
  }

  /** The counts of a sequence of deletes: together the size of the union of their filters, each at
      most what its own filter hits in the untouched table. */
  predicate Accounts(rows: seq<ChunkRow>, fs: seq<Filter>, deleted: seq<nat>) {
    && |deleted| == |fs|
    && Sum(deleted) == Count(rows, fs)
    && forall i | 0 <= i < |deleted| :: deleted[i] <= Count(rows, [fs[i]])
  }

  lemma SumAppend(counts: seq<nat>, c: nat)
    ensures Sum(counts + [c]) == Sum(counts) + c
  {
    assert (counts + [c])[..|counts|] == counts;
  }

  lemma NoneLeft(rows: seq<ChunkRow>, f: Filter)
    ensures Count(Without(rows, [f]), [f]) == 0
  {
    WithoutMore(rows, [f], f);
    CountTwice(rows, f);
  }

  lemma {:induction false} CountTwice(rows: seq<ChunkRow>, f: Filter)
    ensures Count(rows, [f] + [f]) == Count(rows, [f])
  {
    if rows != [] {
      CountTwice(rows[1..], f);
      HitsMore([f], f, rows[0]);
    }
  }

  // ---- Protection ----

  predicate Protects(status: string) {
    status == "indexed" || status == "partial" || status == "pending" || status == "processing"
  }

  predicate IsProtected(files: Files, id: string) {
    id in files && Protects(files[id].status)
  }

  const BATCH := 500

  /** `_protected_file_ids`: the query runs in batches and still equals the plain filter. */
  method ProtectedFileIds(files: Files, ids: seq<string>) returns (protected: set<string>)
    ensures protected == set id | id in ids && IsProtected(files, id)
  {
    protected := {};
    var start := 0;
    while start < |ids|
      invariant 0 <= start
      invariant start <= |ids| ==> protected == set id | id in ids[..start] && IsProtected(files, id)
      invariant start > |ids| ==> protected == set id | id in ids && IsProtected(files, id)
      decreases |ids| - start
    {
      var end := if start + BATCH <= |ids| then start + BATCH else |ids|;
      var batch := ids[start..end];
      assert ids[..end] == ids[..start] + batch;
      protected := protected + set id | id in batch && IsProtected(files, id);
      assert end == |ids| ==> ids[..end] == ids;
      start := start + BATCH;
    }
    assert start == |ids| ==> ids[..start] == ids;
  }

  function Unprotected(ids: seq<string>, protected: set<string>): (kept: seq<string>)
    ensures forall id :: id in kept <==> id in ids && id !in protected
  {
    if ids == [] then []
    else
      var rest := Unprotected(ids[1..], protected);
      assert forall id :: id in ids <==> id == ids[0] || id in ids[1..];
      var head := if ids[0] in protected then [] else [ids[0]];
      assert forall id :: id in head + rest <==> id in head || id in rest;
      head + rest
  }

  /** The plan gives a reason to remove the row. */
  predicate RemovedBy(plan: Plan, row: ChunkRow) {
    || row.fileId in plan.orphanIds
    || plan.orphanVault == Some(row.vaultId)
    || (plan.staleScales && row.scale.Some? && row.scale.value != "default")
  }

  lemma ReasonToRemove(plan: Plan, row: ChunkRow)
    ensures HitsAny(Filters(plan), row) <==> RemovedBy(plan, row)
  {
    var fs := Filters(plan);
    var a := if plan.orphanIds == [] then 0 else 1;
    var b := if plan.orphanVault.None? then a else a + 1;
    assert plan.orphanIds != [] ==> fs[0] == FileIn(plan.orphanIds);
    assert plan.orphanVault.Some? ==> fs[a] == VaultIs(plan.orphanVault.value);
    assert plan.staleScales ==> fs[b] == ScaleNotDefault;
  }

  lemma {:induction false} UnprotectedDistinct(ids: seq<string>, protected: set<string>)
    ensures Distinct(ids) ==> Distinct(Unprotected(ids, protected))
  {
    if ids != [] {
      UnprotectedDistinct(ids[1..], protected);
    }
  }

  /** The confirmed path of `_run` after planning: check protection again, then delete. A row can be
      gone only for a reason the plan gives, and the orphan delete spares every file protected at the
      recheck. */
  method RecheckAndApply(table: Table, plan: Plan, files: Files)
    returns (deleted: seq<nat>, dropped: set<string>, applied: Plan)
    modifies table
    ensures dropped == set id | id in plan.orphanIds && IsProtected(files, id)
    ensures applied.orphanVault == plan.orphanVault && applied.staleScales == plan.staleScales
    ensures forall id :: id in applied.orphanIds <==> id in plan.orphanIds && !IsProtected(files, id)
    ensures Distinct(plan.orphanIds) ==> Distinct(applied.orphanIds)
    ensures table.rows == Without(old(table.rows), Filters(applied))
    ensures Accounts(old(table.rows), Filters(applied), deleted)
    ensures Sum(deleted) == |old(table.rows)| - |table.rows|
    ensures forall row | row in old(table.rows) :: row in table.rows <==> !RemovedBy(applied, row)
  {
    var protected := ProtectedFileIds(files, plan.orphanIds);
    dropped := protected;
    applied := plan.(orphanIds := Unprotected(plan.orphanIds, protected));
    UnprotectedDistinct(plan.orphanIds, protected);
    ghost var start := table.rows;
    deleted := table.ApplyCleanup(applied);
    CountsSplit(start, Filters(applied));
    forall row | row in start
      ensures row in table.rows <==> !RemovedBy(applied, row)
    {
      WithoutMembers(start, Filters(applied), row);
      ReasonToRemove(applied, row);
    }
  }

  // ---- One run ----

  datatype Request = Request(orphans: bool, vault: Option<string>, stale: bool, confirm: bool)

  /** `_vault_has_in_flight_files`. */
  predicate InFlight(files: Files, vault: string) {
    exists id | id in files :: files[id].vault == vault && files[id].status == "processing"
  }

  /** `_cleanup_plan_from_report`. */
  function PlanFromReport(report: Report, request: Request): Plan {
    Plan(if request.orphans then report.orphanIds else [], request.vault, request.stale && report.stale > 0)
  }

  predicate HasStatus(files: Files, id: string, statuses: set<string>) {
    id in files && files[id].status in statuses
  }

  /** The statuses behind the claims, the protection and the files in flight. */
  lemma StatusesExactly(files: Files, id: string, vault: string)
    ensures id in ClaimedIds(files) <==> HasStatus(files, id, {"indexed", "partial"})
    ensures IsProtected(files, id) <==> HasStatus(files, id, {"indexed", "partial", "pending", "processing"})
    ensures InFlight(files, vault) <==>
            exists id | id in files :: files[id].vault == vault && HasStatus(files, id, {"processing"})
  {
    if InFlight(files, vault) {
      var other :| other in files && files[other].vault == vault && files[other].status == "processing";
      assert HasStatus(files, other, {"processing"});
    }
  }

  lemma Protections(files: Files)
    ensures forall id :: IsProtected(files, id) <==> HasStatus(files, id, {"indexed", "partial", "pending", "processing"})
  {
    forall id ensures IsProtected(files, id) <==> HasStatus(files, id, {"indexed", "partial", "pending", "processing"}) {
      StatusesExactly(files, id, "");
    }
  }

  /** A file is counted when a row is its chunk. */
  lemma {:induction false} ChunkCounted(rows: seq<ChunkRow>, id: string)
    ensures CountFile(rows, id) > 0 <==> exists row | row in rows :: row.fileId == id
  {
    if rows != [] {
      ChunkCounted(rows[1..], id);
      HitsOne(FileIn([id]), rows[0]);
      assert forall row :: row in rows <==> row == rows[0] || row in rows[1..];
    }
  }

  /** Rows are stale when their scale is named and not the default. */
  lemma {:induction false} StaleSeen(rows: seq<ChunkRow>)
    ensures ReportedStale(rows) > 0 <==>
            exists row | row in rows :: row.scale.Some? && row.scale.value != "" && row.scale.value != "default"
  {
    if rows != [] {
      StaleSeen(rows[1..]);
      assert forall row :: row in rows <==> row == rows[0] || row in rows[1..];
    }
  }

  /** The first half of `_run`: report, plan, protect. */
  method PlanRun(rows: seq<ChunkRow>, request: Request, multiScale: bool, atReport: Files, atPlan: Files)
    returns (report: Report, plan: Plan)
    ensures Describes(report, rows, ClaimedIds(atReport), multiScale) && Distinct(plan.orphanIds)
    ensures forall id :: id in plan.orphanIds <==>
              && request.orphans && CountFile(rows, id) > 0
              && !HasStatus(atReport, id, {"indexed", "partial"})
              && !HasStatus(atPlan, id, {"indexed", "partial", "pending", "processing"})
    ensures plan.orphanVault ==
            if request.vault.Some?
               && !exists id | id in atPlan :: atPlan[id].vault == request.vault.value && HasStatus(atPlan, id, {"processing"})
            then request.vault else None
    ensures plan.staleScales <==> request.stale && !multiScale && ReportedStale(rows) > 0
  {
    Claims(atReport);
    Protections(atPlan);
    report := BuildReport(rows, ClaimedIds(atReport), multiScale);
    plan := PlanFromReport(report, request);
    if plan.orphanVault.Some? {
      StatusesExactly(atPlan, "", plan.orphanVault.value);
      if InFlight(atPlan, plan.orphanVault.value) {
        plan := plan.(orphanVault := None);
      }
    }
    var protected := ProtectedFileIds(atPlan, plan.orphanIds);
    UnprotectedDistinct(plan.orphanIds, protected);
    plan := plan.(orphanIds := Unprotected(plan.orphanIds, protected));
  }

  /** `_run`: report, plan, protect, recheck, delete. The files table is read three times, and may
      change in between; the chunks table is what it was when it was read. */
  method Run(
    table: Table, request: Request, multiScale: bool, atReport: Files, atPlan: Files, atDelete: Files
  ) returns (report: Report, plan: Plan, counts: seq<nat>, deleted: seq<nat>)
    modifies table
    ensures Describes(report, old(table.rows), ClaimedIds(atReport), multiScale)
    ensures !request.confirm ==> table.rows == old(table.rows) && deleted == []
    // The plan that is carried out.
    ensures forall id :: id in plan.orphanIds <==>
              && request.orphans && CountFile(old(table.rows), id) > 0
              && !HasStatus(atReport, id, {"indexed", "partial"})
              && !HasStatus(atPlan, id, {"indexed", "partial", "pending", "processing"})
              && (request.confirm ==> !HasStatus(atDelete, id, {"indexed", "partial", "pending", "processing"}))
    ensures plan.orphanVault ==
            if request.vault.Some?
               && !exists id | id in atPlan :: atPlan[id].vault == request.vault.value && HasStatus(atPlan, id, {"processing"})
            then request.vault else None
    ensures plan.staleScales <==> request.stale && !multiScale && ReportedStale(old(table.rows)) > 0
    // What it deletes, and how that compares with what it announced.
    ensures request.confirm ==>
              && table.rows == Without(old(table.rows), Filters(plan))
              && Accounts(old(table.rows), Filters(plan), deleted)
              && Sum(deleted) == |old(table.rows)| - |table.rows|
    ensures request.confirm ==> forall row | row in old(table.rows) :: row in table.rows <==> !RemovedBy(plan, row)
    ensures counts == PlannedCounts(report, plan) && |counts| == |Filters(plan)|
    ensures forall i | 0 <= i < |deleted| :: i < |counts| && deleted[i] <= counts[i] + Excess(Filters(plan)[i], old(table.rows))
  {
    ghost var start := table.rows;
    report, plan := PlanRun(table.rows, request, multiScale, atReport, atPlan);
    deleted := [];
    if request.confirm {
      Protections(atDelete);
      var gone, _, applied := RecheckAndApply(table, plan, atDelete);
      plan, deleted := applied, gone;
    }
    counts := PlannedCounts(report, plan);
    PlannedExact(report, start, ClaimedIds(atReport), plan);
  }

  lemma Claims(files: Files)
    ensures forall id :: id in ClaimedIds(files) <==> HasStatus(files, id, {"indexed", "partial"})
  {
    forall id ensures id in ClaimedIds(files) <==> HasStatus(files, id, {"indexed", "partial"}) {
      StatusesExactly(files, id, "");
    }
  }
}

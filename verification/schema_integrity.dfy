/**
  The integrity check and the repair of the schema manager. Every table of
  the target schema is classified against the prefixed live tables as
  missing, drifted (its diff produces ALTER SQL) or fine; the check reports
  the first two kinds and marks the schema valid when there is nothing to
  report, the repair creates the missing tables and alters the others with
  the cleaned diff.
 */
module SchemaIntegrity {
  import opened Common
  import opened SchemaTables
  import opened SchemaDiff
  import SchemaNaming
  import SchemaValidity
  import SchemaAssembly

  /** The kinds of title a check or repair response carries for a table. */
  datatype TitleKind = NotPresent | WrongSchema | CreatedTable | UpdatedTable

  datatype Title = Title(table: string, kind: TitleKind)

  /** The text `addTitle` receives for a title. */
  function Message(t: Title): string {
    match t.kind
    case NotPresent => "Table `" + t.table + "` is not present."
    case WrongSchema => "Table `" + t.table + "` is not the correct schema:"
    case CreatedTable => "Created table `" + t.table + "`."
    case UpdatedTable => "Updated `" + t.table + "` table to match current schema."
  }

  datatype DiffEntry = DiffEntry(table: string, diff: TableDiff)

  /** A check response: titles, cleaned diffs (`checkDiff`) and ALTER SQL (`addDiffDetail`). */
  datatype CheckResponse = CheckResponse(titles: seq<Title>, diffs: seq<DiffEntry>, details: seq<seq<string>>)

  const EmptyResponse := CheckResponse([], [], [])

  predicate HasResponses(r: CheckResponse) {
    |r.titles| > 0
  }

  function Concat(a: CheckResponse, b: CheckResponse): CheckResponse {
    CheckResponse(a.titles + b.titles, a.diffs + b.diffs, a.details + b.details)
  }

  /** How one target table compares with the live tables. */
  datatype Status = Missing | Drifted(diff: TableDiff) | Fine

  function Classify(p: Platform, current: map<string, Table>, t: Table): (s: Status)
    ensures s.Missing? <==> t.name !in current
    ensures s.Drifted? <==> t.name in current && DiffTable(p, current[t.name], t).Some?
                            && ProducesAlterSql(p, DiffTable(p, current[t.name], t).value)
    ensures s.Drifted? ==> s.diff == DiffTable(p, current[t.name], t).value
  {
    if t.name !in current then Missing
    else match DiffTable(p, current[t.name], t)
      case None => Fine
      case Some(d) => if ProducesAlterSql(p, d) then Drifted(d) else Fine
  }

  /** The part of the check response one target table contributes. */
  function CheckOne(p: Platform, current: map<string, Table>, base: seq<string>, cron: string, t: Table): CheckResponse {
    match Classify(p, current, t)
    case Missing => CheckResponse([Title(t.name, NotPresent)], [], [])
    case Drifted(d) =>
      CheckResponse([Title(t.name, WrongSchema)], [DiffEntry(t.name, CleanupTableDiff(d, base, cron))], [p.alterTableSql(d)])
    case Fine => EmptyResponse
  }

  /** The loop of `checkTablesIntegrity` over the target tables. */
  function CheckAll(p: Platform, current: map<string, Table>, base: seq<string>, cron: string, tables: seq<Table>): (r: CheckResponse)
    ensures forall n :: Title(n, NotPresent) in r.titles <==>
      exists t :: t in tables && t.name == n && n !in current
    ensures forall n :: Title(n, WrongSchema) in r.titles <==>
      exists t :: t in tables && t.name == n && Classify(p, current, t).Drifted?
    ensures forall x :: x in r.titles ==> x.kind == NotPresent || x.kind == WrongSchema
    ensures !HasResponses(r) <==> forall t :: t in tables ==> Classify(p, current, t).Fine?
    ensures |r.details| == |r.diffs| <= |r.titles| <= |tables|
    decreases |tables|
  {
    if |tables| == 0 then EmptyResponse
    else
      var last := tables[|tables| - 1];
      assert forall t :: t in tables <==> t in tables[..|tables| - 1] || t == last;
      Concat(CheckAll(p, current, base, cron, tables[..|tables| - 1]), CheckOne(p, current, base, cron, last))
  }

  /** No two tables share a name. */
  predicate DistinctNames(tables: seq<Table>) {
    forall j, k :: 0 <= j < k < |tables| ==> tables[j].name != tables[k].name
  }

  /** Titles of one table's name in a response. */
  function TitlesFor(titles: seq<Title>, n: string): nat {
    if |titles| == 0 then 0
    else (if titles[0].table == n then 1 else 0) + TitlesFor(titles[1..], n)
  }

  lemma {:induction false} TitlesForAppend(a: seq<Title>, b: seq<Title>, n: string)
    ensures TitlesFor(a + b, n) == TitlesFor(a, n) + TitlesFor(b, n)
    decreases |a|
  {
    if |a| == 0 {
      assert a + b == b;
    } else {
      assert (a + b)[1..] == a[1..] + b;
      TitlesForAppend(a[1..], b, n);
    }
  }

  /** One table contributes a title for its own name exactly when it is not fine. */
  lemma TitlesForOne(p: Platform, current: map<string, Table>, base: seq<string>, cron: string, t: Table, n: string)
    ensures TitlesFor(CheckOne(p, current, base, cron, t).titles, n)
         == if t.name == n && !Classify(p, current, t).Fine? then 1 else 0
  {
    var ts := CheckOne(p, current, base, cron, t).titles;
    if |ts| > 0 {
      assert ts[1..] == [];
    }
  }

  lemma {:induction false} CheckAllTitles(p: Platform, current: map<string, Table>, base: seq<string>, cron: string, tables: seq<Table>, n: string)
    requires |tables| > 0
    ensures TitlesFor(CheckAll(p, current, base, cron, tables).titles, n)
         == TitlesFor(CheckAll(p, current, base, cron, tables[..|tables| - 1]).titles, n)
          + TitlesFor(CheckOne(p, current, base, cron, tables[|tables| - 1]).titles, n)
  {
    var front := CheckAll(p, current, base, cron, tables[..|tables| - 1]);
    var one := CheckOne(p, current, base, cron, tables[|tables| - 1]);
    assert CheckAll(p, current, base, cron, tables).titles == front.titles + one.titles;
    TitlesForAppend(front.titles, one.titles, n);
  }

  /**
    When the target tables have distinct names, each table that is absent
    from the live set gets exactly one title, the "is not present" one.
   */
  lemma {:induction false} MissingTableHasOneTitle(p: Platform, current: map<string, Table>, base: seq<string>, cron: string, tables: seq<Table>, i: nat)
    requires i < |tables|
    requires DistinctNames(tables)
    requires tables[i].name !in current
    ensures TitlesFor(CheckAll(p, current, base, cron, tables).titles, tables[i].name) == 1
    decreases |tables|
  {
    var n := tables[i].name;
    var front := tables[..|tables| - 1];
    var last := tables[|tables| - 1];
    CheckAllTitles(p, current, base, cron, tables, n);
    TitlesForOne(p, current, base, cron, last, n);
    DistinctFront(tables);
    if i == |tables| - 1 {
      NoTitlesForAbsentName(p, current, base, cron, front, n);
    } else {
      assert front[i] == tables[i];
      MissingTableHasOneTitle(p, current, base, cron, front, i);
    }
  }

  /** Dropping the last table keeps names distinct, and no earlier table carries the last one's name. */
  lemma DistinctFront(tables: seq<Table>)
    requires |tables| > 0 && DistinctNames(tables)
    ensures DistinctNames(tables[..|tables| - 1])
    ensures forall t :: t in tables[..|tables| - 1] ==> t.name != tables[|tables| - 1].name
    ensures forall j :: 0 <= j < |tables| - 1 ==> tables[j].name != tables[|tables| - 1].name
  {
    var front := tables[..|tables| - 1];
    forall t | t in front
      ensures t.name != tables[|tables| - 1].name
    {
      var j :| 0 <= j < |front| && front[j] == t;
      assert tables[j] == t;
    }
  }

  lemma {:induction false} NoTitlesForAbsentName(p: Platform, current: map<string, Table>, base: seq<string>, cron: string, tables: seq<Table>, n: string)
    requires forall t :: t in tables ==> t.name != n
    ensures TitlesFor(CheckAll(p, current, base, cron, tables).titles, n) == 0
    decreases |tables|
  {
    if |tables| > 0 {
      var front := tables[..|tables| - 1];
      var last := tables[|tables| - 1];
      CheckAllTitles(p, current, base, cron, tables, n);
      TitlesForOne(p, current, base, cron, last, n);
      NoTitlesForAbsentName(p, current, base, cron, front, n);
    }
  }

  /**
    The debug log of `checkTablesIntegrity`: after each target table the
    logger receives every ALTER detail gathered so far, so an earlier
    table's detail is logged again for each later table.
   */
  function DebugLog(p: Platform, current: map<string, Table>, base: seq<string>, cron: string, tables: seq<Table>): (log: seq<seq<string>>)
    ensures |log| >= |CheckAll(p, current, base, cron, tables).details|
    ensures log[|log| - |CheckAll(p, current, base, cron, tables).details|..] == CheckAll(p, current, base, cron, tables).details
    decreases |tables|
  {
    if |tables| == 0 then []
    else DebugLog(p, current, base, cron, tables[..|tables| - 1]) + CheckAll(p, current, base, cron, tables).details
  }

  /** A drifted first table has its ALTER SQL logged once more for the table after it. */
  lemma DebugLogRepeats(p: Platform, current: map<string, Table>, base: seq<string>, cron: string, t0: Table, t1: Table)
    requires Classify(p, current, t0).Drifted?
    ensures var log := DebugLog(p, current, base, cron, [t0, t1]);
      |log| >= 2 && log[0] == log[1] == p.alterTableSql(Classify(p, current, t0).diff)
  {
    var d0 := p.alterTableSql(Classify(p, current, t0).diff);
    assert [t0, t1][..1] == [t0];
    assert [t0][..0] == [];
    assert CheckAll(p, current, base, cron, [t0]).details == [d0];
    assert DebugLog(p, current, base, cron, [t0]) == [d0];
    assert CheckAll(p, current, base, cron, [t0, t1]).details
        == [d0] + CheckOne(p, current, base, cron, t1).details;
  }

  /** What one `checkTablesIntegrity` call returns and leaves behind. */
  datatype IntegrityOutcome = IntegrityOutcome(response: CheckResponse, marker: SchemaValidity.Marker)

  /** The check's view of the manager: live tables keyed by prefixed name, core names, cron table. */
  function Current(cfg: SchemaAssembly.SchemaConfig, live: seq<Table>): map<string, Table> {
    SchemaNaming.TableObjects(live, SchemaAssembly.Prefix(cfg))
  }

  function CronTable(cfg: SchemaAssembly.SchemaConfig): string {
    SchemaAssembly.TablenameOf(cfg, "cron")
  }

  /** The target schema is in agreement with the live database. */
  predicate SchemaUpToDate(cfg: SchemaAssembly.SchemaConfig, live: seq<Table>) {
    forall t :: t in SchemaAssembly.TablesSchema(cfg) ==> Classify(cfg.platform, Current(cfg, live), t).Fine?
  }

  /**
    `checkTablesIntegrity`: check every target table and call `markValid`
    exactly when nothing was reported (in particular for an empty target
    schema).
   */
  function CheckTablesIntegrity(cfg: SchemaAssembly.SchemaConfig, live: seq<Table>, m: SchemaValidity.Marker, now: int): (r: IntegrityOutcome)
    ensures !HasResponses(r.response) <==> SchemaUpToDate(cfg, live)
    ensures !HasResponses(r.response) ==> r.marker == SchemaValidity.MarkValid(m, now)
    ensures HasResponses(r.response) ==> r.marker == m
    ensures forall n :: Title(n, NotPresent) in r.response.titles <==>
      exists t :: t in SchemaAssembly.TablesSchema(cfg) && t.name == n && n !in Current(cfg, live)
  {
    var resp := CheckAll(cfg.platform, Current(cfg, live), SchemaAssembly.CoreTableNames(cfg), CronTable(cfg),
                         SchemaAssembly.TablesSchema(cfg));
    IntegrityOutcome(resp, if HasResponses(resp) then m else SchemaValidity.MarkValid(m, now))
  }

  /**
    With distinct target table names, `checkTablesIntegrity` reports each
    missing table exactly once.
   */
  lemma CheckReportsMissingTableOnce(cfg: SchemaAssembly.SchemaConfig, live: seq<Table>, m: SchemaValidity.Marker, now: int, i: nat)
    requires DistinctNames(SchemaAssembly.TablesSchema(cfg))
    requires i < |SchemaAssembly.TablesSchema(cfg)|
    requires SchemaAssembly.TablesSchema(cfg)[i].name !in Current(cfg, live)
    ensures var r := CheckTablesIntegrity(cfg, live, m, now).response;
      TitlesFor(r.titles, SchemaAssembly.TablesSchema(cfg)[i].name) == 1
      && Title(SchemaAssembly.TablesSchema(cfg)[i].name, NotPresent) in r.titles
  {
    MissingTableHasOneTitle(cfg.platform, Current(cfg, live), SchemaAssembly.CoreTableNames(cfg), CronTable(cfg),
                            SchemaAssembly.TablesSchema(cfg), i);
  }

  /** A check that finds nothing makes the schema valid at once when the marker can be written. */
  lemma CleanCheckValidates(cfg: SchemaAssembly.SchemaConfig, live: seq<Table>, m: SchemaValidity.Marker, now: int)
    requires SchemaUpToDate(cfg, live)
    requires m.Absent? || (m.readable && m.writable)
    ensures SchemaValidity.IsValid(CheckTablesIntegrity(cfg, live, m, now).marker, now)
    ensures !SchemaValidity.NeedsCheck(CheckTablesIntegrity(cfg, live, m, now).marker, now)
  {
  }

  /** `needsUpdate`: run the check and report whether it found anything. */
  function NeedsUpdate(cfg: SchemaAssembly.SchemaConfig, live: seq<Table>, m: SchemaValidity.Marker, now: int): (r: (bool, SchemaValidity.Marker))
    ensures r.0 <==> !SchemaUpToDate(cfg, live)
    ensures r.1 == CheckTablesIntegrity(cfg, live, m, now).marker
  {
    var outcome := CheckTablesIntegrity(cfg, live, m, now);
    (HasResponses(outcome.response), outcome.marker)
  }

  /** A database statement issued by the repair. */
  datatype DbOp = RunQuery(sql: string) | AlterTable(diff: TableDiff)

  datatype RepairResponse = RepairResponse(titles: seq<Title>, ops: seq<DbOp>)

  function RunQueries(qs: seq<string>): (ops: seq<DbOp>)
    ensures |ops| == |qs|
    ensures forall i :: 0 <= i < |qs| ==> ops[i] == RunQuery(qs[i])
  {
    seq(|qs|, i requires 0 <= i < |qs| => RunQuery(qs[i]))
  }

  /** What the repair does for one target table. */
  function RepairOne(p: Platform, current: map<string, Table>, base: seq<string>, cron: string, t: Table): RepairResponse {
    if t.name !in current then
      RepairResponse([Title(t.name, CreatedTable)], RunQueries(p.createTableSql(t)))
    else match DiffTable(p, current[t.name], t)
      case None => RepairResponse([], [])
      case Some(d) =>
        var cleaned := CleanupTableDiff(d, base, cron);
        if ProducesAlterSql(p, cleaned) then RepairResponse([Title(t.name, UpdatedTable)], [AlterTable(cleaned)])
        else RepairResponse([], [])
  }

  /** The present target table's diff, after cleanup, would alter it. */
  predicate NeedsAlter(p: Platform, current: map<string, Table>, base: seq<string>, cron: string, t: Table) {
    t.name in current && DiffTable(p, current[t.name], t).Some?
    && ProducesAlterSql(p, CleanupTableDiff(DiffTable(p, current[t.name], t).value, base, cron))
  }

  /** The loop of `repairTables` over the target tables. */
  function RepairAll(p: Platform, current: map<string, Table>, base: seq<string>, cron: string, tables: seq<Table>): (r: RepairResponse)
    ensures forall n :: Title(n, CreatedTable) in r.titles <==> exists t :: t in tables && t.name == n && n !in current
    ensures forall n :: Title(n, UpdatedTable) in r.titles <==>
      exists t :: t in tables && t.name == n && NeedsAlter(p, current, base, cron, t)
    ensures forall x :: x in r.titles ==> x.kind == CreatedTable || x.kind == UpdatedTable
    ensures forall q :: RunQuery(q) in r.ops ==>
      exists t :: t in tables && t.name !in current && q in p.createTableSql(t)
    ensures forall op :: op in r.ops && op.AlterTable? ==>
      ProducesAlterSql(p, op.diff)
      && exists t :: t in tables && NeedsAlter(p, current, base, cron, t)
                  && op.diff == CleanupTableDiff(DiffTable(p, current[t.name], t).value, base, cron)
    ensures forall op :: op in r.ops && op.AlterTable? && op.diff.fromTable !in base ==> op.diff.removed == []
    ensures forall t, q :: t in tables && t.name !in current && q in p.createTableSql(t) ==> RunQuery(q) in r.ops
    ensures forall t :: t in tables && NeedsAlter(p, current, base, cron, t) ==>
      AlterTable(CleanupTableDiff(DiffTable(p, current[t.name], t).value, base, cron)) in r.ops
    decreases |tables|
  {
    if |tables| == 0 then RepairResponse([], [])
    else
      var last := tables[|tables| - 1];
      var front := RepairAll(p, current, base, cron, tables[..|tables| - 1]);
      var one := RepairOne(p, current, base, cron, last);
      assert forall t :: t in tables <==> t in tables[..|tables| - 1] || t == last;
      RepairResponse(front.titles + one.titles, front.ops + one.ops)
  }

  /** `repairTables` on the manager's configuration and live tables. */
  function RepairTables(cfg: SchemaAssembly.SchemaConfig, live: seq<Table>): (r: RepairResponse)
    ensures forall n :: Title(n, CreatedTable) in r.titles <==>
      exists t :: t in SchemaAssembly.TablesSchema(cfg) && t.name == n && n !in Current(cfg, live)
    ensures forall op :: op in r.ops && op.AlterTable? ==>
      op.diff.fromTable in Current(cfg, live)
      && exists t :: t in SchemaAssembly.TablesSchema(cfg) && t.name == op.diff.fromTable
    ensures forall op :: op in r.ops && op.AlterTable? && op.diff.fromTable !in SchemaAssembly.CoreTableNames(cfg) ==>
      op.diff.removed == []
    ensures forall q :: RunQuery(q) in r.ops <==>
      exists t :: t in SchemaAssembly.TablesSchema(cfg) && t.name !in Current(cfg, live) && q in cfg.platform.createTableSql(t)
    ensures forall t :: t in SchemaAssembly.TablesSchema(cfg) && NeedsAlter(cfg.platform, Current(cfg, live),
                                                                         SchemaAssembly.CoreTableNames(cfg), CronTable(cfg), t) ==>
      AlterTable(CleanupTableDiff(DiffTable(cfg.platform, Current(cfg, live)[t.name], t).value,
                                  SchemaAssembly.CoreTableNames(cfg), CronTable(cfg))) in r.ops
  {
    RepairAll(cfg.platform, Current(cfg, live), SchemaAssembly.CoreTableNames(cfg), CronTable(cfg),
              SchemaAssembly.TablesSchema(cfg))
  }

  /** An up-to-date schema is left alone by the repair, apart from diffs whose cleanup still alters. */
  lemma UpToDateRepairCreatesNothing(cfg: SchemaAssembly.SchemaConfig, live: seq<Table>)
    requires SchemaUpToDate(cfg, live)
    ensures forall x :: x in RepairTables(cfg, live).titles ==> x.kind == UpdatedTable
    ensures forall op :: op in RepairTables(cfg, live).ops ==> op.AlterTable?
  {
  }
}

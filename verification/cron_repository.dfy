/**
  `CronRepository`: the query for the last run of an interim job, which
  matches both the current interim name and the old-style one, and its
  evaluation over the rows of the cron table.
 */
module CronRepository {
  import opened Strings

  const CronDot: string := "cron."

  /** A row of the cron table, reduced to the three selected columns. */
  datatype CronRow = CronRow(id: int, lastrun: int, interim: string)

  /**
    The query `queryNextRunTimes` builds: the selected columns, the column
    compared with either of two named parameters, the ordering, and the
    parameter values.
   */
  datatype CronQuery = CronQuery(
    select: seq<string>,
    whereColumn: string,
    whereParams: seq<string>,
    orderBy: string,
    descending: bool,
    params: map<string, string>
  )

  /** The old-style interim name: every `cron.` removed (case-sensitively), then lower-cased. */
  function OldName(interimName: string): (r: string)
    ensures |r| <= |interimName|
    ensures forall k :: 0 <= k < |r| ==> !IsUpper(r[k])
  {
    RemovalShrinks(interimName);
    ToLower(ReplaceAll(interimName, CronDot, ""))
  }

  lemma {:induction false} RemovalShrinks(s: string)
    ensures |ReplaceAll(s, CronDot, "")| <= |s|
    decreases |s|
  {
    if |s| < |CronDot| {
    } else if s[..|CronDot|] == CronDot {
      RemovalShrinks(s[|CronDot|..]);
    } else {
      RemovalShrinks(s[1..]);
    }
  }

  /** `queryNextRunTimes`. */
  function QueryNextRunTimes(interimName: string): (q: CronQuery)
    ensures q.select == ["id", "lastrun", "interim"]
    ensures q.orderBy == "lastrun" && q.descending
    ensures q.whereColumn == "interim" && q.whereParams == ["interim", "oldname"]
    ensures q.params == map["interim" := interimName, "oldname" := OldName(interimName)]
  {
    CronQuery(["id", "lastrun", "interim"], "interim", ["interim", "oldname"], "lastrun", true,
              map["interim" := interimName, "oldname" := OldName(interimName)])
  }

  /** The value of a row's column; only the three cron columns exist. */
  function Column(row: CronRow, name: string): string {
    if name == "interim" then row.interim else ""
  }

  /** The query's condition: the compared column equals one of the bound parameters. */
  predicate Matches(q: CronQuery, row: CronRow) {
    exists p :: p in q.whereParams && p in q.params && Column(row, q.whereColumn) == q.params[p]
  }

  /** The query for an interim name matches exactly the rows carrying that name or its old-style form. */
  lemma MatchesNameOrOldName(interimName: string, row: CronRow)
    ensures Matches(QueryNextRunTimes(interimName), row) <==>
      row.interim == interimName || row.interim == OldName(interimName)
  {
    var q := QueryNextRunTimes(interimName);
    if row.interim == interimName {
      assert "interim" in q.whereParams;
    } else if row.interim == OldName(interimName) {
      assert "oldname" in q.whereParams;
    }
  }

  /** `ORDER BY lastrun DESC`. */
  predicate SortedByLastrunDesc(rows: seq<CronRow>) {
    forall i, j :: 0 <= i < j < |rows| ==> rows[i].lastrun >= rows[j].lastrun
  }

  /** The rows the condition keeps, in table order. */
  function Filter(q: CronQuery, rows: seq<CronRow>): (r: seq<CronRow>)
    ensures forall x :: x in r ==> Matches(q, x)
    ensures multiset(r) <= multiset(rows)
    ensures forall x :: x in rows && Matches(q, x) ==> multiset(r)[x] == multiset(rows)[x]
  {
    if |rows| == 0 then []
    else
      var rest := Filter(q, rows[1..]);
      assert rows == [rows[0]] + rows[1..];
      assert multiset(rows) == multiset{rows[0]} + multiset(rows[1..]);
      if Matches(q, rows[0]) then
        assert multiset([rows[0]] + rest) == multiset{rows[0]} + multiset(rest);
        [rows[0]] + rest
      else rest
  }

  /** Insert a row into a list sorted by descending `lastrun`. */
  function Insert(x: CronRow, sorted: seq<CronRow>): (r: seq<CronRow>)
    requires SortedByLastrunDesc(sorted)
    ensures SortedByLastrunDesc(r)
    ensures multiset(r) == multiset(sorted) + multiset{x}
    ensures |r| > 0 && (r[0] == x || (|sorted| > 0 && r[0] == sorted[0]))
  {
    if |sorted| == 0 then [x]
    else if x.lastrun >= sorted[0].lastrun then [x] + sorted
    else
      var rest := Insert(x, sorted[1..]);
      assert sorted == [sorted[0]] + sorted[1..];
      assert rest[0].lastrun <= sorted[0].lastrun;
      assert forall j :: 0 <= j < |rest| ==> rest[j].lastrun <= sorted[0].lastrun;
      [sorted[0]] + rest
  }

  /** The rows in descending `lastrun` order. */
  function SortDesc(rows: seq<CronRow>): (r: seq<CronRow>)
    ensures SortedByLastrunDesc(r)
    ensures multiset(r) == multiset(rows)
  {
    if |rows| == 0 then []
    else
      assert rows == [rows[0]] + rows[1..];
      Insert(rows[0], SortDesc(rows[1..]))
  }

  /**
    Running the query on the cron table: the matching rows, each as often
    as it occurs in the table, ordered by `lastrun` descending. Rows with
    equal `lastrun` may come in any order in SQL; the model fixes one.
   */
  function Run(q: CronQuery, rows: seq<CronRow>): (r: seq<CronRow>)
    ensures SortedByLastrunDesc(r)
    ensures forall x :: x in r ==> Matches(q, x)
    ensures multiset(r) <= multiset(rows)
    ensures forall x :: x in rows && Matches(q, x) ==> multiset(r)[x] == multiset(rows)[x]
  {
    var kept := Filter(q, rows);
    var r := SortDesc(kept);
    assert forall x :: x in r ==> x in multiset(kept);
    r
  }

  /**
    `getNextRunTimes`: the rows of the cron table for this interim job
    under its current or its old-style name, latest run first.
   */
  function GetNextRunTimes(interimName: string, rows: seq<CronRow>): (r: seq<CronRow>)
    ensures SortedByLastrunDesc(r)
    ensures forall x :: x in r ==> x.interim == interimName || x.interim == OldName(interimName)
    ensures forall x :: x in rows && (x.interim == interimName || x.interim == OldName(interimName)) ==>
      multiset(r)[x] == multiset(rows)[x]
    ensures multiset(r) <= multiset(rows)
  {
    var q := QueryNextRunTimes(interimName);
    forall x {
      MatchesNameOrOldName(interimName, x);
    }
    Run(q, rows)
  }

  /** A name without `cron.` only loses its capitals. */
  lemma OldNameWithoutCronDot(s: string)
    requires !Contains(s, CronDot)
    ensures OldName(s) == ToLower(s)
  {
    ReplaceAllAbsent(s, CronDot, "");
  }

  /**
    The old-style name strips the first `cron.` and lower-cases what came
    before it; the rest of the name is derived the same way.
   */
  lemma OldNameAtFirstCronDot(a: string, b: string)
    requires forall i :: 0 <= i < |a| ==> !OccursAt(a + CronDot + b, CronDot, i)
    ensures OldName(a + CronDot + b) == ToLower(a) + OldName(b)
  {
    ReplaceAllAtFirst(a, CronDot, "", b);
    assert a + "" + ReplaceAll(b, CronDot, "") == a + ReplaceAll(b, CronDot, "");
    ToLowerAppend(a, ReplaceAll(b, CronDot, ""));
  }

  /** Removal happens before lower-casing, so a capitalised `Cron.` survives as `cron.`. */
  lemma CapitalisedCronDotSurvives()
    ensures OldName("Cron.daily") == "cron.daily"
  {
    FirstCharAbsent("Cron.daily", CronDot);
    OldNameWithoutCronDot("Cron.daily");
    assert ToLower("Cron.daily") == "cron.daily";
  }

  /** A string lacking the first character of `sub` does not contain `sub`. */
  lemma FirstCharAbsent(s: string, sub: string)
    requires |sub| > 0 && sub[0] !in s
    ensures !Contains(s, sub)
  {
    forall i | 0 <= i && i + |sub| <= |s|
      ensures !OccursAt(s, sub, i)
    {
      assert s[i] in s;
      assert s[i..i + |sub|][0] == s[i];
    }
  }

  /** The derivation is not idempotent: a removal can create a fresh `cron.`. */
  lemma OldNameNotIdempotent()
    ensures OldName("ccron.ron.") == "cron."
    ensures OldName(OldName("ccron.ron.")) == ""
  {
    RemovalJoinsAroundCronDot();
    assert ToLower("cron.") == "cron.";
    RemovalOfCronDot();
  }

  /** Removing the inner `cron.` of `ccron.ron.` joins the outer letters into a new `cron.`. */
  lemma RemovalJoinsAroundCronDot()
    ensures ReplaceAll("ccron.ron.", CronDot, "") == "cron."
  {
    var s := "ccron.ron.";
    assert s[..|CronDot|] != CronDot by {
      assert s[1] == 'c' && CronDot[1] == 'r';
    }
    assert s[1..] == "cron.ron.";
    assert s[1..][..|CronDot|] == CronDot;
    assert s[1..][|CronDot|..] == "ron.";
    assert ReplaceAll("ron.", CronDot, "") == "ron.";
    assert ReplaceAll(s[1..], CronDot, "") == "ron.";
    assert [s[0]] + "ron." == "cron.";
  }

  /** `cron.` on its own is removed entirely. */
  lemma RemovalOfCronDot()
    ensures OldName("cron.") == ""
  {
    assert CronDot[..|CronDot|] == CronDot;
    assert CronDot[|CronDot|..] == "";
    assert ReplaceAll("cron.", CronDot, "") == "";
  }
}

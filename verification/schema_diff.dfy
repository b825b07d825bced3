/**
  `cleanupTableDiff`: the two adjustments the schema manager makes to a
  comparator diff before reporting or applying it.
 */
module SchemaDiff {
  import opened SchemaTables

  /** The column name some platforms refuse as a rename target. */
  const InterimColumn: string := "interim"

  /** The columns of the renames whose new column is named `interim`, in order. */
  function InterimRenames(rs: seq<Rename>): (cs: seq<Column>)
    ensures forall c :: c in cs ==> c.name == InterimColumn
    ensures forall c :: c in cs <==> exists x :: x in rs && x.column == c && c.name == InterimColumn
  {
    if |rs| == 0 then []
    else
      var rest := InterimRenames(rs[1..]);
      assert forall x :: x in rs <==> x == rs[0] || x in rs[1..];
      if rs[0].column.name == InterimColumn then [rs[0].column] + rest else rest
  }

  /** The renames left in place: those whose new column is not named `interim`, in order. */
  function OtherRenames(rs: seq<Rename>): (ks: seq<Rename>)
    ensures forall x :: x in ks <==> x in rs && x.column.name != InterimColumn
  {
    if |rs| == 0 then []
    else
      var rest := OtherRenames(rs[1..]);
      if rs[0].column.name != InterimColumn then [rs[0]] + rest else rest
  }

  /** Moving renames into the added columns loses and invents none. */
  lemma {:induction false} RenamePartitionSize(rs: seq<Rename>)
    ensures |InterimRenames(rs)| + |OtherRenames(rs)| == |rs|
  {
    if |rs| > 0 {
      RenamePartitionSize(rs[1..]);
    }
  }

  /**
    `cleanupTableDiff`. On the cron table a rename whose new column is
    `interim` becomes an added column. On any table outside the core set
    (`baseTables`, the names of Bolt's own tables) the removed columns are
    dropped from the diff, so content-type data is never deleted.
   */
  function CleanupTableDiff(d: TableDiff, baseTables: seq<string>, cronTable: string): (r: TableDiff)
    ensures r.fromTable == d.fromTable && r.changed == d.changed
    ensures d.fromTable !in baseTables ==> r.removed == []
    ensures d.fromTable in baseTables ==> r.removed == d.removed
    ensures d.fromTable != cronTable ==> r.added == d.added && r.renamed == d.renamed
    ensures d.fromTable == cronTable ==> d.added <= r.added
    ensures d.fromTable == cronTable ==>
      forall x :: x in r.renamed <==> x in d.renamed && x.column.name != InterimColumn
    ensures d.fromTable == cronTable ==>
      forall c :: c in r.added <==>
        c in d.added || exists x :: x in d.renamed && x.column == c && c.name == InterimColumn
    ensures |r.added| + |r.renamed| == |d.added| + |d.renamed|
  {
    RenamePartitionSize(d.renamed);
    var moved :=
      if d.fromTable == cronTable
      then d.(added := d.added + InterimRenames(d.renamed), renamed := OtherRenames(d.renamed))
      else d;
    if d.fromTable !in baseTables then moved.(removed := []) else moved
  }

  lemma {:induction false} InterimRenamesOfOthers(rs: seq<Rename>)
    ensures InterimRenames(OtherRenames(rs)) == []
    ensures OtherRenames(OtherRenames(rs)) == OtherRenames(rs)
  {
    if |rs| > 0 {
      InterimRenamesOfOthers(rs[1..]);
    }
  }

  /** Cleaning an already cleaned diff changes nothing. */
  lemma CleanupIdempotent(d: TableDiff, baseTables: seq<string>, cronTable: string)
    ensures CleanupTableDiff(CleanupTableDiff(d, baseTables, cronTable), baseTables, cronTable)
         == CleanupTableDiff(d, baseTables, cronTable)
  {
    InterimRenamesOfOthers(d.renamed);
  }
}

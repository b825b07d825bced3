/**
  Abstract tables and table diffs, and the database platform the schema
  manager talks to. Doctrine's comparator, its SQL generation and its
  reserved-keyword list are uninterpreted: they are function-valued fields
  of `Platform`, and "the diff produces ALTER SQL" means that the list of
  statements generated for it is non-empty.
 */
module SchemaTables {
  import opened Common

  /**
    A column: its name, its storage type, whether it carries an index, and
    the Doctrine column options it was added with (option name to value).
   */
  datatype Column = Column(name: string, storageType: string, indexed: bool, options: map<string, string>)

  datatype Table = Table(name: string, columns: seq<Column>)

  /** A rename entry of a diff: the old column name and the new column. */
  datatype Rename = Rename(oldName: string, column: Column)

  /** Doctrine's `TableDiff`, reduced to its column lists. */
  datatype TableDiff = TableDiff(
    fromTable: string,
    added: seq<Column>,
    removed: seq<Column>,
    renamed: seq<Rename>,
    changed: seq<Column>
  )

  datatype Platform = Platform(
    /** `Comparator::diffTable(live, target)`; `None` is Doctrine's `false`. */
    diffTable: (Table, Table) -> Option<TableDiff>,
    /** `getAlterTableSQL(diff)`. */
    alterTableSql: TableDiff -> seq<string>,
    /** `getCreateTableSQL(table)`. */
    createTableSql: Table -> seq<string>,
    /** `getReservedKeywordsList()->isKeyword(name)`. */
    isKeyword: string -> bool
  )

  /**
    The comparator's diff of a live table against its target. Doctrine
    records the live table as the diff's `fromTable`; the model stamps
    that name so that no platform can break the link.
   */
  function DiffTable(p: Platform, live: Table, target: Table): (r: Option<TableDiff>)
    ensures r.Some? <==> p.diffTable(live, target).Some?
    ensures r.Some? ==> r.value == p.diffTable(live, target).value.(fromTable := live.name)
  {
    match p.diffTable(live, target)
    case None => None
    case Some(d) => Some(d.(fromTable := live.name))
  }

  /** The diff would change the live table on this platform. */
  predicate ProducesAlterSql(p: Platform, d: TableDiff) {
    |p.alterTableSql(d)| > 0
  }
}

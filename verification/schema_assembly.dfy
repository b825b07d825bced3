/**
  Assembly of the target schema: Bolt's core tables, then one table per
  content type, then the tables registered by extensions. Table builders
  (`buildTable`, `addCustomFields`), the configured field handlers and the
  extension generators are abstract.
 */
module SchemaAssembly {
  import opened Common
  import opened SchemaTables
  import SchemaNaming

  /** A YAML scalar as PHP sees it after parsing the configuration. */
  datatype Scalar = SNull | SBool(b: bool) | SInt(i: int) | SStr(s: string)

  /** One field of a content type: its key, its `type`, and its optional `index` entry. */
  datatype FieldDef = FieldDef(name: string, ftype: string, index: Option<Scalar>)

  /** A content type; `fields` is absent when the entry is missing or not an array. */
  datatype ContentTypeDef = ContentTypeDef(tablename: string, fields: Option<seq<FieldDef>>)

  /** What a field handler tells the schema: `getStorageType()` and `getStorageOptions()`. */
  datatype FieldStorage = FieldStorage(storageType: string, options: map<string, string>)

  /** What an extension's table generator returned: one table or a list of tables. */
  datatype GeneratorOutput = OneTable(table: Table) | TableList(tables: seq<Table>)

  datatype SchemaConfig = SchemaConfig(
    platform: Platform,
    /** `general/database/prefix`, if configured. */
    configuredPrefix: Option<string>,
    slugify: string -> string,
    /** The keys of `schema.tables`, in order. */
    coreTableNames: seq<string>,
    /** The columns the core table builder for a key produces. */
    coreColumns: string -> seq<Column>,
    contentTypes: seq<ContentTypeDef>,
    /** `ContentType::isKnownType`. */
    isKnownType: string -> bool,
    /** The columns every content-type table starts with. */
    contentTypeBaseColumns: seq<Column>,
    /** `ContentType::addCustomFields(name, type, addIndex)`. */
    customColumns: (string, string, bool) -> seq<Column>,
    /** The storage type and options of the field handler registered for a type, if any. */
    fieldHandler: string -> Option<FieldStorage>,
    /** The outputs of the registered generators, in registration order. */
    generators: seq<GeneratorOutput>
  )

  function Prefix(cfg: SchemaConfig): string {
    SchemaNaming.TablenamePrefix(cfg.configuredPrefix)
  }

  function TablenameOf(cfg: SchemaConfig, name: string): string {
    SchemaNaming.Tablename(Prefix(cfg), cfg.slugify, name)
  }

  /**
    The configuration's `index == 'true'`, with PHP 5/7 loose comparison:
    a boolean compares as a boolean, a string by content, an integer
    against the number 0 that `'true'` converts to, and `null` (or an unset
    entry) never matches.
   */
  function AddIndex(index: Option<Scalar>): (r: bool)
    ensures index.None? || index == Some(SNull) ==> !r
    ensures index == Some(SBool(true)) || index == Some(SStr("true")) ==> r
    ensures index.Some? && index.value.SStr? ==> (r <==> index.value.s == "true")
    ensures index == Some(SBool(false)) ==> !r
  {
    match index
    case None => false
    case Some(SNull) => false
    case Some(SBool(b)) => b
    case Some(SStr(s)) => s == "true"
    case Some(SInt(i)) => i == 0
  }

  /** Loose comparison makes `index: 0` request an index while `index: 1` does not. */
  lemma IntegerIndexQuirk()
    ensures AddIndex(Some(SInt(0)))
    ensures !AddIndex(Some(SInt(1)))
  {
  }

  /** `addContentTypeTableColumn`: the columns one non-reserved field adds. */
  function FieldColumns(cfg: SchemaConfig, f: FieldDef): (cs: seq<Column>)
    ensures cfg.isKnownType(f.ftype) ==> cs == cfg.customColumns(f.name, f.ftype, AddIndex(f.index))
    ensures !cfg.isKnownType(f.ftype) && cfg.fieldHandler(f.ftype).Some? ==>
      cs == [Column(f.name, cfg.fieldHandler(f.ftype).value.storageType, false, cfg.fieldHandler(f.ftype).value.options)]
    ensures !cfg.isKnownType(f.ftype) && cfg.fieldHandler(f.ftype).None? ==> cs == []
  {
    if cfg.isKnownType(f.ftype) then cfg.customColumns(f.name, f.ftype, AddIndex(f.index))
    else match cfg.fieldHandler(f.ftype)
      case Some(h) => [Column(f.name, h.storageType, false, h.options)]
      case None => []
  }

  /** `addContentTypeTableColumns`: fields named by a reserved keyword are skipped. */
  function ContentTypeColumns(cfg: SchemaConfig, fields: seq<FieldDef>): seq<Column>
  {
    if |fields| == 0 then []
    else
      var own := if cfg.platform.isKeyword(fields[0].name) then [] else FieldColumns(cfg, fields[0]);
      own + ContentTypeColumns(cfg, fields[1..])
  }

  /**
    The columns of a field list are the columns of its parts, in order;
    together with the next lemma this fixes `ContentTypeColumns`.
   */
  lemma {:induction false} ContentTypeColumnsAppend(cfg: SchemaConfig, a: seq<FieldDef>, b: seq<FieldDef>)
    ensures ContentTypeColumns(cfg, a + b) == ContentTypeColumns(cfg, a) + ContentTypeColumns(cfg, b)
    decreases |a|
  {
    if |a| == 0 {
      assert a + b == b;
    } else {
      assert (a + b)[1..] == a[1..] + b;
      ContentTypeColumnsAppend(cfg, a[1..], b);
    }
  }

  /** A single field contributes nothing when reserved, and its own columns otherwise. */
  lemma SingleFieldColumns(cfg: SchemaConfig, f: FieldDef)
    ensures cfg.platform.isKeyword(f.name) ==> ContentTypeColumns(cfg, [f]) == []
    ensures !cfg.platform.isKeyword(f.name) ==> ContentTypeColumns(cfg, [f]) == FieldColumns(cfg, f)
  {
    assert [f][1..] == [];
  }

  /** The fields `addContentTypeTableColumns` reports as reserved words, in order. */
  function ReservedFields(cfg: SchemaConfig, fields: seq<FieldDef>): (r: seq<string>)
    ensures forall n :: n in r <==> exists f :: f in fields && f.name == n && cfg.platform.isKeyword(n)
  {
    if |fields| == 0 then []
    else
      var rest := ReservedFields(cfg, fields[1..]);
      assert forall f :: f in fields <==> f == fields[0] || f in fields[1..];
      if cfg.platform.isKeyword(fields[0].name) then [fields[0].name] + rest else rest
  }

  /** A reserved field contributes nothing: the columns are those of the fields around it. */
  lemma {:induction false} ReservedFieldAddsNoColumn(cfg: SchemaConfig, fields: seq<FieldDef>, i: nat)
    requires i < |fields| && cfg.platform.isKeyword(fields[i].name)
    ensures ContentTypeColumns(cfg, fields)
         == ContentTypeColumns(cfg, fields[..i]) + ContentTypeColumns(cfg, fields[i + 1..])
  {
    assert fields == fields[..i] + ([fields[i]] + fields[i + 1..]);
    ContentTypeColumnsAppend(cfg, fields[..i], [fields[i]] + fields[i + 1..]);
    ContentTypeColumnsAppend(cfg, [fields[i]], fields[i + 1..]);
    SingleFieldColumns(cfg, fields[i]);
  }

  /** `getBoltTablesSchema`: one table per core key, named with the prefix. */
  function CoreTables(cfg: SchemaConfig): (ts: seq<Table>)
    ensures |ts| == |cfg.coreTableNames|
    ensures forall i :: 0 <= i < |ts| ==>
      ts[i] == Table(TablenameOf(cfg, cfg.coreTableNames[i]), cfg.coreColumns(cfg.coreTableNames[i]))
  {
    seq(|cfg.coreTableNames|, i requires 0 <= i < |cfg.coreTableNames| =>
      Table(TablenameOf(cfg, cfg.coreTableNames[i]), cfg.coreColumns(cfg.coreTableNames[i])))
  }

  /** `getBoltTablesNames`: the names of the core tables. */
  function CoreTableNames(cfg: SchemaConfig): (ns: seq<string>)
    ensures |ns| == |cfg.coreTableNames|
    ensures forall i :: 0 <= i < |ns| ==> ns[i] == CoreTables(cfg)[i].name
    ensures forall t :: t in CoreTables(cfg) ==> t.name in ns
  {
    var core := CoreTables(cfg);
    seq(|core|, i requires 0 <= i < |core| => core[i].name)
  }

  /** The table built for one content type. */
  function ContentTypeTable(cfg: SchemaConfig, ct: ContentTypeDef): (t: Table)
    ensures t.name == TablenameOf(cfg, ct.tablename)
    ensures cfg.contentTypeBaseColumns <= t.columns
    ensures ct.fields.None? ==> t.columns == cfg.contentTypeBaseColumns
    ensures ct.fields.Some? ==> t.columns == cfg.contentTypeBaseColumns + ContentTypeColumns(cfg, ct.fields.value)
  {
    var extra := if ct.fields.Some? then ContentTypeColumns(cfg, ct.fields.value) else [];
    Table(TablenameOf(cfg, ct.tablename), cfg.contentTypeBaseColumns + extra)
  }

  /** `getContentTypeTablesSchema`: one table per content type, in configuration order. */
  function ContentTypeTables(cfg: SchemaConfig): (ts: seq<Table>)
    ensures |ts| == |cfg.contentTypes|
    ensures forall i :: 0 <= i < |ts| ==> ts[i] == ContentTypeTable(cfg, cfg.contentTypes[i])
  {
    seq(|cfg.contentTypes|, i requires 0 <= i < |cfg.contentTypes| => ContentTypeTable(cfg, cfg.contentTypes[i]))
  }

  /** The `mapTableName` calls made while the content-type tables are built. */
  function ContentTypeTableMap(cfg: SchemaConfig, cts: seq<ContentTypeDef>, tableMap: map<string, string>): (r: map<string, string>)
    ensures forall ct :: ct in cts ==> TablenameOf(cfg, ct.tablename) in r
    ensures forall k :: k in tableMap ==> k in r
    ensures forall k :: k in r && k !in tableMap ==> exists ct :: ct in cts && TablenameOf(cfg, ct.tablename) == k
    ensures |cts| > 0 ==> r[TablenameOf(cfg, cts[|cts| - 1].tablename)] == cts[|cts| - 1].tablename
    ensures LastContentTypeWins(cfg, cts, tableMap, r)
    decreases |cts|
  {
    if |cts| == 0 then tableMap
    else
      var last := cts[|cts| - 1];
      var front := ContentTypeTableMap(cfg, cts[..|cts| - 1], tableMap);
      assert forall ct :: ct in cts <==> ct in cts[..|cts| - 1] || ct == last;
      var r := SchemaNaming.MapTableName(front, TablenameOf(cfg, last.tablename), last.tablename);
      LastContentTypeWinsStep(cfg, cts, tableMap, front, r);
      r
  }

  /**
    Every mapped table name holds either its original entry, when no
    content type builds it, or the key of the last content type that does.
   */
  predicate LastContentTypeWins(cfg: SchemaConfig, cts: seq<ContentTypeDef>, tableMap: map<string, string>, r: map<string, string>) {
    forall k :: k in r ==> WinsAt(cfg, cts, tableMap, r, k)
  }

  predicate WinsAt(cfg: SchemaConfig, cts: seq<ContentTypeDef>, tableMap: map<string, string>, r: map<string, string>, k: string) {
    k in r &&
    ((k in tableMap && r[k] == tableMap[k] && NotBuiltFrom(cfg, cts, 0, k))
     || exists j :: 0 <= j < |cts| && TablenameOf(cfg, cts[j].tablename) == k && r[k] == cts[j].tablename
                    && NotBuiltFrom(cfg, cts, j + 1, k))
  }

  /** No content type from position `from` on builds the table `k`. */
  predicate NotBuiltFrom(cfg: SchemaConfig, cts: seq<ContentTypeDef>, from: int, k: string) {
    forall m :: 0 <= from <= m < |cts| ==> TablenameOf(cfg, cts[m].tablename) != k
  }

  lemma LastContentTypeWinsStep(cfg: SchemaConfig, cts: seq<ContentTypeDef>, tableMap: map<string, string>,
                                front: map<string, string>, r: map<string, string>)
    requires |cts| > 0
    requires LastContentTypeWins(cfg, cts[..|cts| - 1], tableMap, front)
    requires r == front[TablenameOf(cfg, cts[|cts| - 1].tablename) := cts[|cts| - 1].tablename]
    ensures LastContentTypeWins(cfg, cts, tableMap, r)
  {
    var n := |cts| - 1;
    forall k | k in r
      ensures WinsAt(cfg, cts, tableMap, r, k)
    {
      if k == TablenameOf(cfg, cts[n].tablename) {
        assert TablenameOf(cfg, cts[n].tablename) == k && r[k] == cts[n].tablename && NotBuiltFrom(cfg, cts, n + 1, k);
      } else {
        assert WinsAt(cfg, cts[..n], tableMap, front, k);
        NotBuiltExtends(cfg, cts, k);
        assert r[k] == front[k];
      }
    }
  }

  /** A table the last content type does not build is built from the same positions of the shorter list. */
  lemma NotBuiltExtends(cfg: SchemaConfig, cts: seq<ContentTypeDef>, k: string)
    requires |cts| > 0 && TablenameOf(cfg, cts[|cts| - 1].tablename) != k
    ensures forall from :: 0 <= from ==> (NotBuiltFrom(cfg, cts[..|cts| - 1], from, k) ==> NotBuiltFrom(cfg, cts, from, k))
    ensures forall j :: 0 <= j < |cts| - 1 ==> cts[..|cts| - 1][j] == cts[j]
  {
    var init := cts[..|cts| - 1];
    forall from | 0 <= from && NotBuiltFrom(cfg, init, from, k)
      ensures NotBuiltFrom(cfg, cts, from, k)
    {
      forall m | from <= m < |cts|
        ensures TablenameOf(cfg, cts[m].tablename) != k
      {
        if m < |init| {
          assert cts[m] == init[m];
        }
      }
    }
  }

  /**
    `getExtensionTablesSchema`: a generator returning a list contributes
    its tables in order, one returning a single table contributes it.
   */
  function ExtensionTables(gs: seq<GeneratorOutput>): seq<Table>
  {
    if |gs| == 0 then []
    else
      var own := match gs[0] case OneTable(t) => [t] case TableList(ts) => ts;
      own + ExtensionTables(gs[1..])
  }

  lemma {:induction false} ExtensionTablesAppend(a: seq<GeneratorOutput>, b: seq<GeneratorOutput>)
    ensures ExtensionTables(a + b) == ExtensionTables(a) + ExtensionTables(b)
    decreases |a|
  {
    if |a| == 0 {
      assert a + b == b;
    } else {
      assert (a + b)[1..] == a[1..] + b;
      ExtensionTablesAppend(a[1..], b);
    }
  }

  /** Registering a generator appends its output after every earlier generator's tables. */
  lemma RegisterExtensionTable(gs: seq<GeneratorOutput>, g: GeneratorOutput)
    ensures ExtensionTables(gs + [g]) == ExtensionTables(gs) + (match g case OneTable(t) => [t] case TableList(ts) => ts)
  {
    ExtensionTablesAppend(gs, [g]);
    assert [g][1..] == [];
  }

  /** `getTablesSchema`: the core tables, then the content-type tables, then the extension tables. */
  function TablesSchema(cfg: SchemaConfig): (ts: seq<Table>)
    ensures |ts| == |cfg.coreTableNames| + |cfg.contentTypes| + |ExtensionTables(cfg.generators)|
    ensures ts[..|cfg.coreTableNames|] == CoreTables(cfg)
    ensures ts[|cfg.coreTableNames|..|cfg.coreTableNames| + |cfg.contentTypes|] == ContentTypeTables(cfg)
    ensures ts[|cfg.coreTableNames| + |cfg.contentTypes|..] == ExtensionTables(cfg.generators)
    ensures forall t :: t in ts <==>
      t in CoreTables(cfg) || t in ContentTypeTables(cfg) || t in ExtensionTables(cfg.generators)
  {
    var core := CoreTables(cfg);
    var cts := ContentTypeTables(cfg);
    var ext := ExtensionTables(cfg.generators);
    assert (core + cts + ext)[..|core|] == core;
    assert (core + cts + ext)[|core|..|core| + |cts|] == cts;
    core + cts + ext
  }

  /** Every table of the target schema except the extension tables carries the prefix. */
  lemma CoreAndContentTablesArePrefixed(cfg: SchemaConfig, t: Table)
    requires t in CoreTables(cfg) || t in ContentTypeTables(cfg)
    ensures Prefix(cfg) <= t.name
  {
  }
}

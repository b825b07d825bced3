/**
  Table naming in the schema manager: the configured prefix, prefixed
  table names, the filter that keeps only this installation's live
  tables, and the table-name map filled while content-type tables are
  built. The slugifier is an abstract function.
 */
module SchemaNaming {
  import opened Common
  import opened Strings
  import opened SchemaTables

  const DefaultPrefix: string := "bolt_"

  /**
    `getTablenamePrefix`: the configured `general/database/prefix`
    (default `bolt_`), with `_` appended unless it already ends in `_`.
    An empty prefix reads its last character as the empty string, so it
    becomes `_`.
   */
  function TablenamePrefix(configured: Option<string>): (p: string)
    ensures |p| > 0 && p[|p| - 1] == '_'
    ensures configured.None? ==> p == DefaultPrefix
    ensures configured.Some? ==> configured.value <= p && |p| <= |configured.value| + 1
    ensures configured.Some? && |configured.value| > 0 && configured.value[|configured.value| - 1] == '_' ==>
              p == configured.value
  {
    var raw := configured.GetOr(DefaultPrefix);
    if |raw| > 0 && raw[|raw| - 1] == '_' then raw else raw + "_"
  }

  /** Normalising the prefix is idempotent. */
  lemma PrefixIdempotent(configured: Option<string>)
    ensures TablenamePrefix(Some(TablenamePrefix(configured))) == TablenamePrefix(configured)
  {
  }

  /**
    `getTablename`: the prefix followed by the slug of `name` with every
    `-` turned into `_`.
   */
  function Tablename(prefix: string, slugify: string -> string, name: string): (t: string)
    ensures prefix <= t
    ensures |t| == |prefix| + |slugify(name)|
    ensures forall i :: 0 <= i < |slugify(name)| ==>
      t[|prefix| + i] == (if slugify(name)[i] == '-' then '_' else slugify(name)[i])
    ensures forall i :: |prefix| <= i < |t| ==> t[i] != '-'
  {
    ReplaceCharIsMapChar(slugify(name), '-', '_');
    prefix + ReplaceAll(slugify(name), "-", "_")
  }

  /**
    The prefix filter of `getTableObjects`: keep, in listing order, the
    live tables whose name starts with the prefix.
   */
  function FilterPrefixed(live: seq<Table>, prefix: string): (r: seq<Table>)
    ensures forall t :: t in r <==> (t in live && prefix <= t.name)
    ensures |r| <= |live|
  {
    if |live| == 0 then []
    else
      var rest := FilterPrefixed(live[1..], prefix);
      if prefix <= live[0].name then [live[0]] + rest else rest
  }

  /**
    `getTableObjects`: the prefixed live tables keyed by name; when two
    listed tables share a name the later one wins, as with a PHP array
    assignment.
   */
  function TableObjects(live: seq<Table>, prefix: string): (m: map<string, Table>)
    ensures forall n :: n in m <==> exists t :: t in live && t.name == n && prefix <= n
    ensures forall n :: n in m ==> m[n] in live && m[n].name == n
  {
    KeyByName(FilterPrefixed(live, prefix))
  }

  function KeyByName(ts: seq<Table>): (m: map<string, Table>)
    ensures forall n :: n in m <==> exists t :: t in ts && t.name == n
    ensures forall n :: n in m ==> m[n] in ts && m[n].name == n
    ensures |ts| > 0 ==> m[ts[|ts| - 1].name] == ts[|ts| - 1]
    ensures LastTableWins(ts, m)
  {
    if |ts| == 0 then map[]
    else
      var last := ts[|ts| - 1];
      var front := KeyByName(ts[..|ts| - 1]);
      assert forall t :: t in ts <==> (t in ts[..|ts| - 1] || t == last);
      LastTableWinsStep(ts, front);
      front[last.name := last]
  }

  /** Each name is keyed to a table carrying it that no later table of the list shares the name with. */
  predicate LastTableWins(ts: seq<Table>, m: map<string, Table>) {
    forall n :: n in m ==>
      exists j :: 0 <= j < |ts| && m[n] == ts[j] && forall k :: j < k < |ts| ==> ts[k].name != n
  }

  lemma LastTableWinsStep(ts: seq<Table>, front: map<string, Table>)
    requires |ts| > 0
    requires LastTableWins(ts[..|ts| - 1], front)
    ensures LastTableWins(ts, front[ts[|ts| - 1].name := ts[|ts| - 1]])
  {
    var n := |ts| - 1;
    var init := ts[..n];
    var m := front[ts[n].name := ts[n]];
    forall name | name in m
      ensures exists j :: 0 <= j < |ts| && m[name] == ts[j] && forall k :: j < k < |ts| ==> ts[k].name != name
    {
      if name == ts[n].name {
        assert m[name] == ts[n];
      } else {
        var j :| 0 <= j < |init| && front[name] == init[j] && forall k :: j < k < |init| ==> init[k].name != name;
        assert m[name] == ts[j];
        forall k | j < k < |ts|
          ensures ts[k].name != name
        {
          if k < n {
            assert ts[k] == init[k];
          }
        }
      }
    }
  }

  /** Every name built by `getTablename` passes the prefix filter of `getTableObjects`. */
  lemma TablenameIsKept(prefix: string, slugify: string -> string, name: string, live: seq<Table>, t: Table)
    requires t in live && t.name == Tablename(prefix, slugify, name)
    ensures Tablename(prefix, slugify, name) in TableObjects(live, prefix)
  {
  }

  /** `mapTableName(from, to)`: remember which content-type key a table name came from. */
  function MapTableName(tableMap: map<string, string>, from: string, to: string): (r: map<string, string>)
    ensures KeyForTable(r, from) == Some(to)
    ensures forall k :: k != from ==> KeyForTable(r, k) == KeyForTable(tableMap, k)
  {
    tableMap[from := to]
  }

  /** `getKeyForTable`: the remembered key, or nothing (PHP `null`). */
  function KeyForTable(tableMap: map<string, string>, table: string): (r: Option<string>)
    ensures r.Some? <==> table in tableMap
    ensures r.Some? ==> r.value == tableMap[table]
  {
    if table in tableMap then Some(tableMap[table]) else None
  }
}

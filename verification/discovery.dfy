/**
 Table discovery (`get_table_paths`): the source volume holds one directory per
 schema and, inside each, one directory per table. Hidden entries and files are
 ignored at both levels, a schema whose listing fails contributes no tables, a
 root whose listing fails yields no tables at all, and the result is sorted by
 the `schema/table` label.
 */
module Discovery {
  import opened Strings
  import opened Sorting
  import opened Listing

  /** One logical table: its schema and table names and its directory. */
  datatype TableRef = TableRef(schema: string, table: string, path: string)

  /** The `schema/table` label that both sorts the tables and tags their results. */
  function Label(t: TableRef): string
  {
    t.schema + "/" + t.table
  }

  /** An entry discovery descends into: a directory whose name is not hidden. */
  predicate IsVisibleDir(e: Entry)
  {
    e.isDir && !Hidden(e.name)
  }

  /** The name of a directory entry without its trailing slashes. */
  function DirName(e: Entry): string
  {
    RStrip(e.name, '/')
  }

  /** The tables of one schema, in listing order. */
  function TablesOfSchema(schema: string, entries: seq<Entry>): (r: seq<TableRef>)
    ensures forall t :: t in r <==>
      exists e :: e in entries && IsVisibleDir(e) && t == TableRef(schema, DirName(e), e.path)
    ensures |r| <= |entries|
  {
    if entries == [] then []
    else
      var e := entries[0];
      var rest := TablesOfSchema(schema, entries[1..]);
      assert forall x :: x in entries <==> x == e || x in entries[1..];
      if IsVisibleDir(e) then [TableRef(schema, DirName(e), e.path)] + rest else rest
  }

  /** A table directory exists under a visible schema directory of the listed
      root `schemas`, and its schema directory can be listed. */
  ghost predicate FoundUnder(volume: Volume, schemas: seq<Entry>, t: TableRef)
  {
    exists s, e ::
      && s in schemas && IsVisibleDir(s) && s.path in volume
      && e in volume[s.path] && IsVisibleDir(e)
      && t == TableRef(DirName(s), DirName(e), e.path)
  }

  /** The tables of every schema, schemas in listing order, before sorting. */
  function CollectTables(volume: Volume, schemas: seq<Entry>): (r: seq<TableRef>)
    ensures forall t :: t in r <==> FoundUnder(volume, schemas, t)
  {
    if schemas == [] then []
    else
      var s := schemas[0];
      var here := if IsVisibleDir(s) && s.path in volume then TablesOfSchema(DirName(s), volume[s.path]) else [];
      var rest := CollectTables(volume, schemas[1..]);
      assert forall x :: x in schemas <==> x == s || x in schemas[1..];
      assert forall t :: t in here <==> FoundUnder(volume, [s], t);
      here + rest
  }

  /** Listing order and multiplicity are kept: each visible directory entry
      gives one table, and the tables of an earlier stretch of the listing
      come before those of a later one. */
  lemma {:induction false} TablesOfSchemaAppend(schema: string, a: seq<Entry>, b: seq<Entry>)
    ensures TablesOfSchema(schema, a + b) == TablesOfSchema(schema, a) + TablesOfSchema(schema, b)
  {
    if a == [] {
      assert a + b == b;
    } else {
      assert (a + b)[0] == a[0] && (a + b)[1..] == a[1..] + b;
      TablesOfSchemaAppend(schema, a[1..], b);
    }
  }

  /** The tables one schema entry contributes: its table directories, once
      each, when it is a visible directory that can be listed, else none. */
  lemma CollectTablesOfOne(volume: Volume, s: Entry)
    ensures CollectTables(volume, [s])
         == if IsVisibleDir(s) && s.path in volume then TablesOfSchema(DirName(s), volume[s.path]) else []
  {}

  /** Schemas are visited in listing order and each contributes its tables
      once: nothing is repeated, dropped or reordered across schemas. */
  lemma {:induction false} CollectTablesAppend(volume: Volume, a: seq<Entry>, b: seq<Entry>)
    ensures CollectTables(volume, a + b) == CollectTables(volume, a) + CollectTables(volume, b)
  {
    if a == [] {
      assert a + b == b;
    } else {
      assert (a + b)[0] == a[0] && (a + b)[1..] == a[1..] + b;
      CollectTablesAppend(volume, a[1..], b);
    }
  }

  /** The tables discovered under `root`. */
  ghost predicate Discovered(volume: Volume, root: string, t: TableRef)
  {
    root in volume && FoundUnder(volume, volume[root], t)
  }

  /** `get_table_paths(root)`. */
  function TablePaths(volume: Volume, root: string): (r: seq<TableRef>)
    ensures SortedBy(r, Label)
    ensures forall t :: t in r <==> Discovered(volume, root, t)
    ensures root !in volume ==> r == []
    ensures root in volume ==> multiset(r) == multiset(CollectTables(volume, volume[root]))
  {
    if root !in volume then []
    else
      var found := CollectTables(volume, volume[root]);
      var r := SortBy(found, Label);
      assert forall t :: t in r <==> t in found by {
        forall t ensures t in r <==> t in found {
          SortByMembers(found, Label, t);
        }
      }
      r
  }

  /** Tables that share a label keep the order in which the listings produced
      them. */
  lemma TablePathsStable(volume: Volume, root: string, lbl: string)
    requires root in volume
    ensures WithKey(TablePaths(volume, root), Label, lbl)
         == WithKey(CollectTables(volume, volume[root]), Label, lbl)
  {
    SortByStable(CollectTables(volume, volume[root]), Label, lbl);
  }
}

/** The database schema as the validators see it: each table with its columns,
    as `PRAGMA table_info` describes them, and the columns an insert must set. */
module SchemaCache {
  import opened Wrappers
  import opened Values

  /** One column: its name, declared type, `NOT NULL` flag, default value (`Null`
      when it has none) and primary-key flag. */
  datatype TableColumn = TableColumn(name: string, sqlType: string, notNull: bool, defaultValue: Value, primaryKey: bool)

  datatype TableInfo = TableInfo(name: string, columns: seq<TableColumn>)

  /** The cached schema: every table, in name order. */
  datatype SchemaState = SchemaState(tables: seq<TableInfo>)

  /** `s` is `t` with some elements left out, order kept. */
  predicate IsSubsequence(s: seq<string>, t: seq<string>)
    decreases |t|
  {
    if |s| == 0 then true
    else if |t| == 0 then false
    else (s[0] == t[0] && IsSubsequence(s[1..], t[1..])) || IsSubsequence(s, t[1..])
  }

  function ColumnNames(columns: seq<TableColumn>): (r: seq<string>)
    ensures |r| == |columns| && forall i :: 0 <= i < |r| ==> r[i] == columns[i].name
  {
    seq(|columns|, i requires 0 <= i < |columns| => columns[i].name)
  }

  /** The columns an insert must supply, in column order: a primary-key column
      never, any other column when it is `NOT NULL` and has no default. */
  function RequiredFrom(columns: seq<TableColumn>): (r: seq<string>)
    ensures |r| <= |columns|
    ensures IsSubsequence(r, ColumnNames(columns))
    ensures forall n :: n in r <==>
      exists c :: c in columns && c.name == n && !c.primaryKey && c.notNull && c.defaultValue == Null
    decreases |columns|
  {
    if |columns| == 0 then []
    else
      var c := columns[0];
      var rest := RequiredFrom(columns[1..]);
      assert ColumnNames(columns)[1..] == ColumnNames(columns[1..]);
      assert forall d :: d in columns <==> d == c || d in columns[1..];
      if c.primaryKey then rest
      else if c.notNull && c.defaultValue == Null then
        assert ([c.name] + rest)[1..] == rest;
        [c.name] + rest
      else rest
  }

  /** `required_columns_for_table`: one pass over the columns, skipping primary
      keys and keeping the `NOT NULL` columns without a default. */
  method RequiredColumnsForTable(table: TableInfo) returns (required: seq<string>)
    ensures required == RequiredFrom(table.columns)
    ensures IsSubsequence(required, ColumnNames(table.columns))
    ensures forall n :: n in required <==>
      exists c :: c in table.columns && c.name == n && !c.primaryKey && c.notNull && c.defaultValue == Null
  {
    var columns := table.columns;
    required := [];
    var i := 0;
    while i < |columns|
      invariant 0 <= i <= |columns|
      invariant required + RequiredFrom(columns[i..]) == RequiredFrom(columns)
    {
      var column := columns[i];
      assert columns[i..][1..] == columns[i + 1..];
      if column.primaryKey {
        i := i + 1;
        continue;
      }
      if column.notNull && column.defaultValue == Null {
        required := required + [column.name];
      }
      i := i + 1;
    }
    assert columns[|columns|..] == [];
  }
}

/** `validate_change_set`: checks a change-set against the database schema.
    Every insert must supply the table's required columns, and every update
    and delete must name a record that exists or that the batch creates.
    Tables the schema does not know are skipped. The schema and the ids the
    database holds are passed in as values. */
module SemanticValidator {
  import opened Wrappers
  import opened Values
  import opened Seqs
  import opened ChangeSets
  import opened SchemaCache

  datatype SemanticError =
    | MissingRequiredField(table: string, index: nat, column: string)
    | MissingId(table: string, op: Op, index: nat)
    | UnknownRecord(table: string, op: Op, index: nat, id: string)

  /** `tables_by_name.get(name)`: a dict built from the table list keeps the last table of a name. */
  function TableByName(tables: seq<TableInfo>, name: string): (r: Option<TableInfo>)
    ensures r.None? <==> forall t :: t in tables ==> t.name != name
    ensures r.Some? ==> r.value in tables && r.value.name == name
    decreases |tables|
  {
    if |tables| == 0 then None
    else if tables[|tables| - 1].name == name then Some(tables[|tables| - 1])
    else
      assert forall t :: t in tables ==> t in tables[..|tables| - 1] || t == tables[|tables| - 1];
      TableByName(tables[..|tables| - 1], name)
  }

  predicate InsertRequires(c: TableColumn) {
    c.notNull && !c.primaryKey && c.defaultValue == Null
  }

  function Names(columns: seq<TableColumn>): seq<string> {
    seq(|columns|, i requires 0 <= i < |columns| => columns[i].name)
  }

  /** The validator's own list comprehension over the columns. */
  function InsertRequiredColumns(info: TableInfo): seq<string> {
    Names(Filter(info.columns, InsertRequires))
  }

  /** The validator's comprehension and `required_columns_for_table` pick the same columns in the same order. */
  lemma {:induction false} RequiredColumnsAgree(columns: seq<TableColumn>)
    ensures Names(Filter(columns, InsertRequires)) == RequiredFrom(columns)
    decreases |columns|
  {
    if |columns| > 0 {
      RequiredColumnsAgree(columns[1..]);
      var rest := Filter(columns[1..], InsertRequires);
      if InsertRequires(columns[0]) {
        assert Names([columns[0]] + rest) == [columns[0].name] + Names(rest);
      }
    }
  }

  /** `col_name not in row or row[col_name] is None`. */
  predicate Missing(row: Row, column: string) {
    column !in row || row[column] == Null
  }

  /** The required columns a row leaves out, in column order. */
  function MissingColumns(row: Row, required: seq<string>): (r: seq<string>)
    ensures forall c :: c in r <==> c in required && Missing(row, c)
  {
    Filter(required, (c: string) => Missing(row, c))
  }

  /** One error per required column the `index`-th insert leaves out. */
  function RowMissing(table: string, index: nat, row: Row, required: seq<string>): (r: seq<SemanticError>)
    ensures forall e :: e in r <==> exists c :: c in required && Missing(row, c) && e == MissingRequiredField(table, index, c)
  {
    var m := MissingColumns(row, required);
    var r := seq(|m|, i requires 0 <= i < |m| => MissingRequiredField(table, index, m[i]));
    assert forall c :: c in m ==> MissingRequiredField(table, index, c) in r by {
      forall c | c in m ensures MissingRequiredField(table, index, c) in r {
        var i :| 0 <= i < |m| && m[i] == c;
        assert r[i] == MissingRequiredField(table, index, c);
      }
    }
    r
  }

  /** The required-column errors of the inserts `rows`, numbered from `from`. */
  function InsertErrors(table: string, required: seq<string>, rows: seq<Row>, from: nat): (r: seq<SemanticError>)
    ensures forall e :: e in r ==> e.MissingRequiredField? && e.table == table
    decreases |rows|
  {
    if |rows| == 0 then []
    else RowMissing(table, from, rows[0], required) + InsertErrors(table, required, rows[1..], from + 1)
  }

  /** Every required-column error names a row of the batch and a required
      column that row leaves out. */
  lemma {:induction false} InsertErrorsSound(table: string, required: seq<string>, rows: seq<Row>, from: nat)
    ensures forall e :: e in InsertErrors(table, required, rows, from) ==>
      from <= e.index < from + |rows| && e.column in required && Missing(rows[e.index - from], e.column)
    decreases |rows|
  {
    if |rows| > 0 {
      InsertErrorsSound(table, required, rows[1..], from + 1);
      assert forall k :: 1 <= k < |rows| ==> rows[1..][k - 1] == rows[k];
    }
  }

  /** Every required column a row leaves out is reported, with the row's index. */
  lemma {:induction false} InsertErrorsComplete(table: string, required: seq<string>, rows: seq<Row>, from: nat)
    ensures forall k, c :: 0 <= k < |rows| && c in required && Missing(rows[k], c) ==>
      MissingRequiredField(table, from + k, c) in InsertErrors(table, required, rows, from)
    decreases |rows|
  {
    if |rows| > 0 {
      InsertErrorsComplete(table, required, rows[1..], from + 1);
      assert forall k :: 1 <= k < |rows| ==> rows[1..][k - 1] == rows[k];
    }
  }

  /** `str(row["id"])` resolves when it is a placeholder or names a known record. */
  predicate Resolves(row: Row, known: set<string>) {
    "id" in row && (IsPlaceholder(Render(row["id"])) || Render(row["id"]) in known)
  }

  /** The errors of the update or delete rows `rows`, numbered from `from`: a
      row without `id` is one error, and so is a row whose id is neither a
      placeholder nor a known record. */
  /** The error of the `index`-th update or delete `row`, if it has one. */
  function RowRecordErrors(table: string, op: Op, row: Row, known: set<string>, index: nat): (r: seq<SemanticError>)
    ensures forall e :: e in r ==>
      && !e.MissingRequiredField? && e.table == table && e.op == op && e.index == index
      && !Resolves(row, known)
      && (e.MissingId? <==> "id" !in row)
      && (e.UnknownRecord? ==> e.id == Render(row["id"]))
  {
    if "id" !in row then [MissingId(table, op, index)]
    else if !Resolves(row, known) then [UnknownRecord(table, op, index, Render(row["id"]))]
    else []
  }

  function RecordErrors(table: string, op: Op, rows: seq<Row>, known: set<string>, from: nat): (r: seq<SemanticError>)
    ensures |r| <= |rows|
    decreases |rows|
  {
    if |rows| == 0 then []
    else RowRecordErrors(table, op, rows[0], known, from) + RecordErrors(table, op, rows[1..], known, from + 1)
  }

  /** Every record error is the error of the row at its index. */
  lemma {:induction false} RecordErrorsLocate(table: string, op: Op, rows: seq<Row>, known: set<string>, from: nat)
    ensures forall e :: e in RecordErrors(table, op, rows, known, from) ==>
      from <= e.index < from + |rows| && e in RowRecordErrors(table, op, rows[e.index - from], known, e.index)
    decreases |rows|
  {
    if |rows| > 0 {
      var head := RowRecordErrors(table, op, rows[0], known, from);
      var tail := RecordErrors(table, op, rows[1..], known, from + 1);
      RecordErrorsLocate(table, op, rows[1..], known, from + 1);
      forall e: SemanticError | e in head + tail
        ensures from <= e.index < from + |rows| && e in RowRecordErrors(table, op, rows[e.index - from], known, e.index)
      {
        if e !in head {
          assert rows[1..][e.index - (from + 1)] == rows[e.index - from];
        }
      }
    }
  }

  /** Every record error names a row of the batch that does not resolve: a
      missing-id error a row without `id`, an unknown-record error the row's
      rendered id. */
  lemma RecordErrorsSound(table: string, op: Op, rows: seq<Row>, known: set<string>, from: nat)
    ensures forall e :: e in RecordErrors(table, op, rows, known, from) ==>
      && !e.MissingRequiredField? && e.table == table && e.op == op && from <= e.index < from + |rows|
      && !Resolves(rows[e.index - from], known)
      && (e.MissingId? <==> "id" !in rows[e.index - from])
      && (e.UnknownRecord? ==> e.id == Render(rows[e.index - from]["id"]))
  {
    RecordErrorsLocate(table, op, rows, known, from);
  }

  /** Every row that does not resolve is reported: without `id` as a missing
      id, otherwise as an unknown record. */
  lemma {:induction false} RecordErrorsComplete(table: string, op: Op, rows: seq<Row>, known: set<string>, from: nat)
    ensures forall k :: 0 <= k < |rows| && "id" !in rows[k] ==> MissingId(table, op, from + k) in RecordErrors(table, op, rows, known, from)
    ensures forall k :: 0 <= k < |rows| && "id" in rows[k] && !Resolves(rows[k], known) ==>
      UnknownRecord(table, op, from + k, Render(rows[k]["id"])) in RecordErrors(table, op, rows, known, from)
    decreases |rows|
  {
    if |rows| > 0 {
      RecordErrorsComplete(table, op, rows[1..], known, from + 1);
      assert forall k :: 1 <= k < |rows| ==> rows[1..][k - 1] == rows[k];
    }
  }

  /** The ids `SELECT id FROM <table>` returns, rendered with `str`; a table the
      query fails on (absent from `dbRows`) has none, and so does a table
      without an `id` column. */
  function ExistingIds(info: TableInfo, dbRows: map<string, seq<Row>>): set<string> {
    if (exists c :: c in info.columns && c.name == "id") && info.name in dbRows then
      set row: Row | row in dbRows[info.name] && "id" in row :: Render(row["id"])
    else {}
  }

  /** The string ids of a table's inserts. */
  function CreatedIds(inserts: seq<Row>): set<string> {
    set row: Row | row in inserts && "id" in row && row["id"].Str? :: row["id"].s
  }

  /** The records an update or delete of the entry's table may name. */
  function KnownIds(info: TableInfo, e: Entry, dbRows: map<string, seq<Row>>): set<string> {
    ExistingIds(info, dbRows) + CreatedIds(e.section.inserts)
  }

  function EntryInsertErrors(e: Entry, schema: SchemaState): seq<SemanticError> {
    match TableByName(schema.tables, e.table.Name())
    case None => []
    case Some(info) => InsertErrors(e.table.Name(), InsertRequiredColumns(info), e.section.inserts, 0)
  }

  function EntryRecordErrors(e: Entry, schema: SchemaState, dbRows: map<string, seq<Row>>): seq<SemanticError> {
    match TableByName(schema.tables, e.table.Name())
    case None => []
    case Some(info) =>
      var known := KnownIds(info, e, dbRows);
      RecordErrors(e.table.Name(), Update, e.section.updates, known, 0)
      + RecordErrors(e.table.Name(), Delete, e.section.deletes, known, 0)
  }

  /** What the validator accepts for one table: a table the schema does not know
      is accepted as it is; otherwise every insert supplies every required
      column and every update and delete names a placeholder or a known record. */
  predicate EntryValid(e: Entry, schema: SchemaState, dbRows: map<string, seq<Row>>) {
    match TableByName(schema.tables, e.table.Name())
    case None => true
    case Some(info) =>
      && (forall k, c :: 0 <= k < |e.section.inserts| && c in InsertRequiredColumns(info) ==> !Missing(e.section.inserts[k], c))
      && (forall k :: 0 <= k < |e.section.updates| ==> Resolves(e.section.updates[k], KnownIds(info, e, dbRows)))
      && (forall k :: 0 <= k < |e.section.deletes| ==> Resolves(e.section.deletes[k], KnownIds(info, e, dbRows)))
  }

  /** The inserts raise nothing exactly when each supplies every required column. */
  lemma InsertErrorsEmpty(table: string, required: seq<string>, rows: seq<Row>)
    ensures |InsertErrors(table, required, rows, 0)| == 0 <==>
      forall k, c :: 0 <= k < |rows| && c in required ==> !Missing(rows[k], c)
  {
    var r := InsertErrors(table, required, rows, 0);
    InsertErrorsSound(table, required, rows, 0);
    InsertErrorsComplete(table, required, rows, 0);
    if |r| > 0 { assert r[0] in r; }
  }

  /** The updates or deletes raise nothing exactly when each resolves. */
  lemma RecordErrorsEmpty(table: string, op: Op, rows: seq<Row>, known: set<string>)
    ensures |RecordErrors(table, op, rows, known, 0)| == 0 <==> forall k :: 0 <= k < |rows| ==> Resolves(rows[k], known)
  {
    var r := RecordErrors(table, op, rows, known, 0);
    RecordErrorsSound(table, op, rows, known, 0);
    RecordErrorsComplete(table, op, rows, known, 0);
    if |r| > 0 { assert r[0] in r; }
    forall k | 0 <= k < |rows| && !Resolves(rows[k], known) ensures |r| > 0 {
      if "id" !in rows[k] { assert MissingId(table, op, k) in r; }
      else { assert UnknownRecord(table, op, k, Render(rows[k]["id"])) in r; }
    }
  }

  lemma EntryErrorsEmpty(e: Entry, schema: SchemaState, dbRows: map<string, seq<Row>>)
    ensures |EntryInsertErrors(e, schema)| + |EntryRecordErrors(e, schema, dbRows)| == 0 <==> EntryValid(e, schema, dbRows)
  {
    match TableByName(schema.tables, e.table.Name())
    case None =>
    case Some(info) =>
      var known := KnownIds(info, e, dbRows);
      InsertErrorsEmpty(e.table.Name(), InsertRequiredColumns(info), e.section.inserts);
      RecordErrorsEmpty(e.table.Name(), Update, e.section.updates, known);
      RecordErrorsEmpty(e.table.Name(), Delete, e.section.deletes, known);
  }

  /** The first loop: the required-column errors of every table, in table order. */
  function InsertPass(cs: ChangeSet, schema: SchemaState): (r: seq<SemanticError>)
    ensures forall e :: e in r <==> exists i :: 0 <= i < |cs| && e in EntryInsertErrors(cs[i], schema)
    ensures |r| == 0 <==> forall i :: 0 <= i < |cs| ==> |EntryInsertErrors(cs[i], schema)| == 0
    decreases |cs|
  {
    if |cs| == 0 then []
    else
      var rest := InsertPass(cs[1..], schema);
      assert forall i :: 1 <= i < |cs| ==> cs[1..][i - 1] == cs[i];
      EntryInsertErrors(cs[0], schema) + rest
  }

  /** The second loop: the update and delete errors of every table, in table order. */
  function RecordPass(cs: ChangeSet, schema: SchemaState, dbRows: map<string, seq<Row>>): (r: seq<SemanticError>)
    ensures forall e :: e in r <==> exists i :: 0 <= i < |cs| && e in EntryRecordErrors(cs[i], schema, dbRows)
    ensures |r| == 0 <==> forall i :: 0 <= i < |cs| ==> |EntryRecordErrors(cs[i], schema, dbRows)| == 0
    decreases |cs|
  {
    if |cs| == 0 then []
    else
      var rest := RecordPass(cs[1..], schema, dbRows);
      assert forall i :: 1 <= i < |cs| ==> cs[1..][i - 1] == cs[i];
      EntryRecordErrors(cs[0], schema, dbRows) + rest
  }

  /** Every error, the required-column errors first. */
  function Errors(cs: ChangeSet, schema: SchemaState, dbRows: map<string, seq<Row>>): seq<SemanticError> {
    InsertPass(cs, schema) + RecordPass(cs, schema, dbRows)
  }

  /** `validate_change_set`: raises with every error it collected, and passes
      exactly when each table of the change-set is valid. */
  function ValidateChangeSet(cs: ChangeSet, schema: SchemaState, dbRows: map<string, seq<Row>>): (r: Outcome<SemanticError>)
    ensures r.Pass? <==> forall i :: 0 <= i < |cs| ==> EntryValid(cs[i], schema, dbRows)
    ensures r.Fail? ==> r.errors == Errors(cs, schema, dbRows) && |r.errors| > 0
  {
    forall i | 0 <= i < |cs| ensures EntryValid(cs[i], schema, dbRows) <==>
      |EntryInsertErrors(cs[i], schema)| == 0 && |EntryRecordErrors(cs[i], schema, dbRows)| == 0 {
      EntryErrorsEmpty(cs[i], schema, dbRows);
    }
    RaiseIfAny(Errors(cs, schema, dbRows))
  }
}

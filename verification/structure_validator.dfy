/** `validate_change_set_structure`: every placeholder a row references through
    `form_id`, `page_id`, `field_id`, `option_set_id` or `rule_id` must be
    created by an insert of the batch or be the id of a row of the referenced
    table. Non-string references and references that are not placeholders are
    not checked. */
module StructureValidator {
  import opened Wrappers
  import opened Values
  import opened ChangeSets

  /** `<table>.<op>: references non-existent <kind> placeholder <ref>`. */
  datatype StructureError = DanglingReference(table: Table, op: Op, column: RefColumn, ref: string)

  // ---------------------------------------------------------------------------
  // First pass: the ids the batch carries

  /** The string ids of `rows`. */
  function StringIds(rows: seq<Row>): (r: set<string>)
    ensures forall x :: x in r <==> exists row :: row in rows && Get(row, "id", Null) == Str(x)
    decreases |rows|
  {
    if |rows| == 0 then {}
    else
      assert forall row :: row in rows <==> row == rows[0] || row in rows[1..];
      (if Get(rows[0], "id", Null).Str? then {Get(rows[0], "id", Null).s} else {}) + StringIds(rows[1..])
  }

  /** The placeholder ids of `rows`. */
  function PlaceholderIds(rows: seq<Row>): (r: set<string>)
    ensures forall x :: x in r <==> exists row :: row in rows && Get(row, "id", Null) == Str(x) && IsPlaceholder(x)
    decreases |rows|
  {
    if |rows| == 0 then {}
    else
      var id := Get(rows[0], "id", Null);
      assert forall row :: row in rows <==> row == rows[0] || row in rows[1..];
      (if id.Str? && IsPlaceholder(id.s) then {id.s} else {}) + PlaceholderIds(rows[1..])
  }

  /** `created_ids`: the placeholder ids of the inserts of every table. One set
      serves every table, so a placeholder any table creates satisfies a
      reference into any other. */
  function CreatedPlaceholders(cs: ChangeSet): (r: set<string>)
    ensures forall x :: x in r <==>
      exists i :: 0 <= i < |cs| && x in PlaceholderIds(cs[i].section.inserts)
  {
    set i, x | 0 <= i < |cs| && x in PlaceholderIds(cs[i].section.inserts) :: x
  }

  function AllRows(s: Section): seq<Row> {
    s.inserts + s.updates + s.deletes
  }

  /** `form_ids`, `page_ids`, ...: the string ids of every row, of any operation,
      of the tables called `name`. */
  function IdsOfTable(cs: ChangeSet, name: string): (r: set<string>)
    ensures forall x :: x in r <==>
      exists i :: 0 <= i < |cs| && cs[i].table.Name() == name && x in StringIds(AllRows(cs[i].section))
  {
    set i, x | 0 <= i < |cs| && cs[i].table.Name() == name && x in StringIds(AllRows(cs[i].section)) :: x
  }

  /** The checked reference columns. */
  datatype RefColumn = FormRef | PageRef | FieldRef | OptionSetRef | RuleRef {
    function Name(): string {
      match this
      case FormRef => "form_id"
      case PageRef => "page_id"
      case FieldRef => "field_id"
      case OptionSetRef => "option_set_id"
      case RuleRef => "rule_id"
    }
  }

  /** The reference columns in the order the validator checks them. */
  const RefColumns: seq<RefColumn> := [FormRef, PageRef, FieldRef, OptionSetRef, RuleRef]

  lemma AllColumnsChecked()
    ensures forall c: RefColumn :: c in RefColumns
    ensures forall a, b :: 0 <= a < b < |RefColumns| ==> RefColumns[a] != RefColumns[b]
  {
    forall c: RefColumn ensures c in RefColumns {
      match c
      case FormRef => assert RefColumns[0] == c;
      case PageRef => assert RefColumns[1] == c;
      case FieldRef => assert RefColumns[2] == c;
      case OptionSetRef => assert RefColumns[3] == c;
      case RuleRef => assert RefColumns[4] == c;
    }
  }

  /** What the first pass collects. */
  datatype Known = Known(created: set<string>, forms: set<string>, pages: set<string>, fields: set<string>,
                         optionSets: set<string>, rules: set<string>)

  function FirstPass(cs: ChangeSet): Known {
    Known(CreatedPlaceholders(cs), IdsOfTable(cs, "forms"), IdsOfTable(cs, "form_pages"),
          IdsOfTable(cs, "form_fields"), IdsOfTable(cs, "option_sets"), IdsOfTable(cs, "logic_rules"))
  }

  /** The ids of the table a reference column points into. */
  function IdsFor(known: Known, column: RefColumn): set<string> {
    match column
    case FormRef => known.forms
    case PageRef => known.pages
    case FieldRef => known.fields
    case OptionSetRef => known.optionSets
    case RuleRef => known.rules
  }

  // ---------------------------------------------------------------------------
  // Second pass: the references

  /** The reference in `column` is a string placeholder that the batch neither
      creates nor carries as a row of the referenced table. */
  predicate Dangles(known: Known, row: Row, column: RefColumn) {
    var c := column.Name();
    && c in row && row[c].Str? && IsPlaceholder(row[c].s)
    && row[c].s !in known.created && row[c].s !in IdsFor(known, column)
  }

  function ErrorFor(table: Table, op: Op, row: Row, column: RefColumn): StructureError
    requires column.Name() in row && row[column.Name()].Str?
  {
    DanglingReference(table, op, column, row[column.Name()].s)
  }

  /** The errors of one row over the columns `cols`, in column order. */
  function ColumnErrors(known: Known, table: Table, op: Op, row: Row, cols: seq<RefColumn>): (r: seq<StructureError>)
    ensures forall e :: e in r ==> exists c :: c in cols && Dangles(known, row, c) && e == ErrorFor(table, op, row, c)
    ensures forall c :: c in cols && Dangles(known, row, c) ==> ErrorFor(table, op, row, c) in r
    ensures forall k :: 0 <= k < |r| ==> r[k].column in cols
    decreases |cols|
  {
    if |cols| == 0 then []
    else
      var rest := ColumnErrors(known, table, op, row, cols[1..]);
      assert forall c :: c in cols <==> c == cols[0] || c in cols[1..];
      if Dangles(known, row, cols[0]) then [ErrorFor(table, op, row, cols[0])] + rest else rest
  }

  /** No two of the errors name the same column. */
  predicate DistinctColumns(r: seq<StructureError>) {
    forall a, b :: 0 <= a < b < |r| ==> r[a].column != r[b].column
  }

  /** An error whose column none of `rest`'s columns repeat keeps them distinct. */
  lemma ConsDistinct(head: StructureError, rest: seq<StructureError>, cols: seq<RefColumn>)
    requires DistinctColumns(rest)
    requires forall k :: 0 <= k < |rest| ==> rest[k].column in cols
    requires head.column !in cols
    ensures DistinctColumns([head] + rest)
  {
    var r := [head] + rest;
    forall a, b | 0 <= a < b < |r| ensures r[a].column != r[b].column {
      assert r[b] == rest[b - 1];
      if a > 0 {
        assert r[a] == rest[a - 1];
      }
    }
  }

  /** Over distinct columns, no two errors of a row name the same column. */
  lemma {:induction false} ColumnErrorsDistinct(known: Known, table: Table, op: Op, row: Row, cols: seq<RefColumn>)
    requires forall a, b :: 0 <= a < b < |cols| ==> cols[a] != cols[b]
    ensures DistinctColumns(ColumnErrors(known, table, op, row, cols))
    decreases |cols|
  {
    if |cols| > 0 {
      var rest := ColumnErrors(known, table, op, row, cols[1..]);
      forall a, b | 0 <= a < b < |cols[1..]| ensures cols[1..][a] != cols[1..][b] {
        assert cols[1..][a] == cols[a + 1] && cols[1..][b] == cols[b + 1];
      }
      ColumnErrorsDistinct(known, table, op, row, cols[1..]);
      if Dangles(known, row, cols[0]) {
        var head := ErrorFor(table, op, row, cols[0]);
        assert cols[0] !in cols[1..] by {
          forall j | 0 <= j < |cols[1..]| ensures cols[1..][j] != cols[0] {
            assert cols[1..][j] == cols[j + 1];
          }
        }
        ConsDistinct(head, rest, cols[1..]);
        var r := [head] + rest;
        assert ColumnErrors(known, table, op, row, cols) == r;
      } else {
        assert ColumnErrors(known, table, op, row, cols) == rest;
      }
    }
  }

  /** A row passes when none of its reference columns dangles. */
  predicate RowSound(known: Known, row: Row) {
    forall c: RefColumn :: !Dangles(known, row, c)
  }

  /** The errors of one row: one per dangling reference column. */
  function RowErrors(known: Known, table: Table, op: Op, row: Row): (r: seq<StructureError>)
    ensures forall e :: e in r <==> exists c: RefColumn :: Dangles(known, row, c) && e == ErrorFor(table, op, row, c)
    ensures DistinctColumns(r)
    ensures |r| == 0 <==> RowSound(known, row)
  {
    AllColumnsChecked();
    ColumnErrorsDistinct(known, table, op, row, RefColumns);
    var r := ColumnErrors(known, table, op, row, RefColumns);
    assert !RowSound(known, row) ==> |r| > 0 by {
      if !RowSound(known, row) {
        var c: RefColumn :| Dangles(known, row, c);
        assert ErrorFor(table, op, row, c) in r;
      }
    }
    assert |r| > 0 ==> !RowSound(known, row) by {
      if |r| > 0 { assert r[0] in r; }
    }
    r
  }

  function RowsErrors(known: Known, table: Table, op: Op, rows: seq<Row>): (r: seq<StructureError>)
    ensures forall e :: e in r <==> exists row :: row in rows && e in RowErrors(known, table, op, row)
    ensures forall e :: e in r ==> e.table == table && e.op == op
    ensures |r| == 0 <==> forall row :: row in rows ==> RowSound(known, row)
    decreases |rows|
  {
    if |rows| == 0 then []
    else
      var head := RowErrors(known, table, op, rows[0]);
      var rest := RowsErrors(known, table, op, rows[1..]);
      assert forall row :: row in rows <==> row == rows[0] || row in rows[1..];
      head + rest
  }

  /** One table's errors: its inserts, then updates, then deletes. */
  predicate EntrySound(known: Known, e: Entry) {
    forall row :: row in AllRows(e.section) ==> RowSound(known, row)
  }

  function EntryErrors(known: Known, e: Entry): (r: seq<StructureError>)
    ensures |r| == 0 <==> EntrySound(known, e)
  {
    var s := e.section;
    assert forall row :: row in AllRows(s) <==> row in s.inserts || row in s.updates || row in s.deletes;
    RowsErrors(known, e.table, Insert, s.inserts)
    + RowsErrors(known, e.table, Update, s.updates)
    + RowsErrors(known, e.table, Delete, s.deletes)
  }

  /** A table's errors are those of its rows, under the operation each error names. */
  lemma EntryErrorsAre(known: Known, e: Entry)
    ensures forall x :: x in EntryErrors(known, e) <==> x in RowsErrors(known, e.table, x.op, e.section.Rows(x.op))
  {
  }

  /** Every table's errors, in table order. */
  function EntriesErrors(known: Known, cs: ChangeSet): seq<StructureError>
    decreases |cs|
  {
    if |cs| == 0 then [] else EntryErrors(known, cs[0]) + EntriesErrors(known, cs[1..])
  }

  /** The batch's errors are those of its tables. */
  lemma {:induction false} EntriesErrorsAre(known: Known, cs: ChangeSet)
    ensures forall x :: x in EntriesErrors(known, cs) <==> exists i :: 0 <= i < |cs| && x in EntryErrors(known, cs[i])
    decreases |cs|
  {
    if |cs| > 0 {
      var rest := EntriesErrors(known, cs[1..]);
      EntriesErrorsAre(known, cs[1..]);
      forall x | x in rest ensures exists i :: 0 <= i < |cs| && x in EntryErrors(known, cs[i]) {
        var j :| 0 <= j < |cs[1..]| && x in EntryErrors(known, cs[1..][j]);
        assert cs[1..][j] == cs[j + 1];
      }
      forall x, i | 1 <= i < |cs| && x in EntryErrors(known, cs[i]) ensures x in rest {
        assert cs[1..][i - 1] == cs[i];
      }
    }
  }

  /** The batch raises nothing exactly when every table is sound. */
  lemma {:induction false} EntriesErrorsEmpty(known: Known, cs: ChangeSet)
    ensures |EntriesErrors(known, cs)| == 0 <==> forall i :: 0 <= i < |cs| ==> EntrySound(known, cs[i])
    decreases |cs|
  {
    if |cs| > 0 {
      EntriesErrorsEmpty(known, cs[1..]);
      assert forall i :: 1 <= i < |cs| ==> cs[1..][i - 1] == cs[i];
    }
  }

  /** `validate_change_set_structure`: raises with every dangling reference, and
      passes exactly when no row of any table has one. */
  function ValidateStructure(cs: ChangeSet): (r: Outcome<StructureError>)
    ensures r.Pass? <==> forall i :: 0 <= i < |cs| ==> EntrySound(FirstPass(cs), cs[i])
    ensures r.Fail? ==> r.errors == EntriesErrors(FirstPass(cs), cs) && |r.errors| > 0
  {
    EntriesErrorsEmpty(FirstPass(cs), cs);
    RaiseIfAny(EntriesErrors(FirstPass(cs), cs))
  }
}

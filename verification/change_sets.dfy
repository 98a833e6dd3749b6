/** The change-set: a table-keyed batch of insert, update and delete rows,
    kept as an insertion-ordered list of table entries (a Python `dict` keeps
    insertion order), plus the placeholder identifiers that stand for rows
    staged earlier in the same batch. */
module ChangeSets {
  import opened Wrappers
  import opened Values
  import Text
  import Seqs

  datatype Op = Insert | Update | Delete

  /** The order the validators visit the operations of a table. */
  const Ops: seq<Op> := [Insert, Update, Delete]

  /** `{"insert": [...], "update": [...], "delete": [...]}` for one table. */
  datatype Section = Section(inserts: seq<Row>, updates: seq<Row>, deletes: seq<Row>) {
    function Rows(op: Op): seq<Row> {
      match op
      case Insert => inserts
      case Update => updates
      case Delete => deletes
    }

    function With(op: Op, rows: seq<Row>): (r: Section)
      ensures r.Rows(op) == rows
      ensures forall o :: o != op ==> r.Rows(o) == Rows(o)
      ensures r.Size() == Size() - |Rows(op)| + |rows|
    {
      match op
      case Insert => this.(inserts := rows)
      case Update => this.(updates := rows)
      case Delete => this.(deletes := rows)
    }

    function Size(): nat {
      |inserts| + |updates| + |deletes|
    }
  }

  const EmptySection: Section := Section([], [], [])

  /** The tables a change-set addresses. The builder writes the first nine;
      any other table name a change-set carries is `Named`. */
  datatype Table =
    | Forms | FormPages | FormFields
    | OptionSets | FieldOptionBinding | OptionItems
    | LogicRules | LogicConditions | LogicActions
    | Named(name: string)
  {
    /** The table's name as a change-set key. */
    function Name(): string {
      match this
      case Forms => "forms"
      case FormPages => "form_pages"
      case FormFields => "form_fields"
      case OptionSets => "option_sets"
      case FieldOptionBinding => "field_option_binding"
      case OptionItems => "option_items"
      case LogicRules => "logic_rules"
      case LogicConditions => "logic_conditions"
      case LogicActions => "logic_actions"
      case Named(name) => name
    }
  }

  /** The table a change-set key denotes: one of the nine the builder writes,
      or `Named` for any other key. */
  function TableNamed(name: string): (r: Table)
    ensures r.Name() == name
  {
    if name == "forms" then Forms
    else if name == "form_pages" then FormPages
    else if name == "form_fields" then FormFields
    else if name == "option_sets" then OptionSets
    else if name == "field_option_binding" then FieldOptionBinding
    else if name == "option_items" then OptionItems
    else if name == "logic_rules" then LogicRules
    else if name == "logic_conditions" then LogicConditions
    else if name == "logic_actions" then LogicActions
    else Named(name)
  }

  /** A table written the one way its key is read: `Named` never carries the
      name of one of the nine builder tables. */
  predicate Canonical(t: Table) {
    TableNamed(t.Name()) == t
  }

  /** Canonical tables are told apart by their keys. */
  lemma KeysIdentifyTables(a: Table, b: Table)
    requires Canonical(a) && Canonical(b)
    ensures a == b <==> a.Name() == b.Name()
  {
  }

  /** The builder's tables are canonical, and so is every other key read back. */
  lemma BuilderTablesCanonical(t: Table)
    ensures !t.Named? ==> Canonical(t)
    ensures Canonical(TableNamed(t.Name()))
  {
    assert TableNamed(TableNamed(t.Name()).Name()) == TableNamed(t.Name());
  }

  datatype Entry = Entry(table: Table, section: Section)

  /** The table sections in insertion order. */
  type ChangeSet = seq<Entry>

  /** `table in change_set`. */
  predicate Has(cs: ChangeSet, table: Table)
    decreases |cs|
  {
    |cs| > 0 && (cs[0].table == table || Has(cs[1..], table))
  }

  /** A change-set names each table once (its keys are those of a dict). */
  predicate UniqueTables(cs: ChangeSet)
    decreases |cs|
  {
    |cs| == 0 || (!Has(cs[1..], cs[0].table) && UniqueTables(cs[1..]))
  }

  /** `change_set.get(table, {})`, an absent table reading as an empty section. */
  function SectionOf(cs: ChangeSet, table: Table): (r: Section)
    ensures !Has(cs, table) ==> r == EmptySection
    decreases |cs|
  {
    if |cs| == 0 then EmptySection
    else if cs[0].table == table then cs[0].section
    else SectionOf(cs[1..], table)
  }

  /** `change_set.get(table, {}).get(op, [])`. */
  function RowsOf(cs: ChangeSet, table: Table, op: Op): seq<Row> {
    SectionOf(cs, table).Rows(op)
  }

  lemma {:induction false} HasAt(cs: ChangeSet, i: nat)
    requires i < |cs|
    ensures Has(cs, cs[i].table)
    decreases i
  {
    if i > 0 {
      HasAt(cs[1..], i - 1);
    }
  }

  /** Distinct canonical tables give a change-set whose keys are distinct, as
      the keys of the dict it stands for are. */
  lemma {:induction false} UniqueKeys(cs: ChangeSet)
    requires UniqueTables(cs)
    requires forall k :: 0 <= k < |cs| ==> Canonical(cs[k].table)
    ensures forall i, j :: 0 <= i < j < |cs| ==> cs[i].table.Name() != cs[j].table.Name()
    decreases |cs|
  {
    if |cs| > 0 {
      UniqueKeys(cs[1..]);
      forall j | 0 < j < |cs|
        ensures cs[0].table.Name() != cs[j].table.Name()
      {
        HasAt(cs[1..], j - 1);
        KeysIdentifyTables(cs[0].table, cs[j].table);
      }
      forall i, j | 0 < i < j < |cs|
        ensures cs[i].table.Name() != cs[j].table.Name()
      {
        assert cs[i] == cs[1..][i - 1] && cs[j] == cs[1..][j - 1];
      }
    }
  }

  /** The number of rows over every table and operation. */
  function TotalRows(cs: ChangeSet): nat
    decreases |cs|
  {
    if |cs| == 0 then 0 else cs[0].section.Size() + TotalRows(cs[1..])
  }

  /** Adding a section at the end keeps every earlier section. */
  lemma {:induction false} AppendEntry(cs: ChangeSet, e: Entry)
    ensures forall t :: Has(cs + [e], t) <==> Has(cs, t) || t == e.table
    ensures forall t :: Has(cs, t) ==> SectionOf(cs + [e], t) == SectionOf(cs, t)
    ensures !Has(cs, e.table) ==> SectionOf(cs + [e], e.table) == e.section
    ensures UniqueTables(cs) && !Has(cs, e.table) ==> UniqueTables(cs + [e])
    ensures TotalRows(cs + [e]) == TotalRows(cs) + e.section.Size()
    decreases |cs|
  {
    if |cs| > 0 {
      assert (cs + [e])[1..] == cs[1..] + [e];
      AppendEntry(cs[1..], e);
    } else {
      assert (cs + [e])[1..] == [];
    }
  }

  /** `_ensure_table_section`: adds an empty section for the table unless it already has one. */
  function EnsureTableSection(cs: ChangeSet, table: Table): (r: ChangeSet)
    ensures Has(cs, table) ==> r == cs
    ensures forall t :: Has(r, t) <==> Has(cs, t) || t == table
    ensures forall t :: SectionOf(r, t) == SectionOf(cs, t)
    ensures TotalRows(r) == TotalRows(cs)
    ensures UniqueTables(cs) ==> UniqueTables(r)
  {
    if Has(cs, table) then cs
    else
      AppendEntry(cs, Entry(table, EmptySection));
      cs + [Entry(table, EmptySection)]
  }

  /** The change-set with the first section of `table` replaced by `sec`. */
  function Replace(cs: ChangeSet, table: Table, sec: Section): (r: ChangeSet)
    requires Has(cs, table)
    ensures forall t :: Has(r, t) <==> Has(cs, t)
    ensures SectionOf(r, table) == sec
    ensures forall t :: t != table ==> SectionOf(r, t) == SectionOf(cs, t)
    ensures TotalRows(r) == TotalRows(cs) - SectionOf(cs, table).Size() + sec.Size()
    ensures UniqueTables(cs) ==> UniqueTables(r)
    decreases |cs|
  {
    if cs[0].table == table then
      var r := [Entry(table, sec)] + cs[1..];
      assert r[1..] == cs[1..];
      r
    else
      var rest := Replace(cs[1..], table, sec);
      var r := [cs[0]] + rest;
      assert r[1..] == rest;
      r
  }

  /** Appends a row to one operation of a table, creating the table's section if needed. */
  function Push(cs: ChangeSet, table: Table, op: Op, row: Row): (r: ChangeSet)
    ensures RowsOf(r, table, op) == RowsOf(cs, table, op) + [row]
    ensures forall t, o :: (t != table || o != op) ==> RowsOf(r, t, o) == RowsOf(cs, t, o)
    ensures forall t :: Has(r, t) <==> Has(cs, t) || t == table
    ensures TotalRows(r) == TotalRows(cs) + 1
    ensures UniqueTables(cs) ==> UniqueTables(r)
  {
    var c := EnsureTableSection(cs, table);
    var sec := SectionOf(c, table);
    Replace(c, table, sec.With(op, sec.Rows(op) + [row]))
  }

  /** Appends rows, in order, to one operation of a table. */
  function PushAll(cs: ChangeSet, table: Table, op: Op, rows: seq<Row>): (r: ChangeSet)
    ensures RowsOf(r, table, op) == RowsOf(cs, table, op) + rows
    ensures forall t, o :: (t != table || o != op) ==> RowsOf(r, t, o) == RowsOf(cs, t, o)
    ensures TotalRows(r) == TotalRows(cs) + |rows|
    ensures forall t :: Has(cs, t) ==> Has(r, t)
    ensures UniqueTables(cs) ==> UniqueTables(r)
    decreases |rows|
  {
    if |rows| == 0 then cs
    else
      var c := PushAll(cs, table, op, rows[..|rows| - 1]);
      Seqs.AppendLast(RowsOf(cs, table, op), rows);
      Push(c, table, op, rows[|rows| - 1])
  }

  /** `_ensure_table_section` for each table in turn: the tables exist and no row changes. */
  function EnsureTables(cs: ChangeSet, tables: seq<Table>): (r: ChangeSet)
    ensures forall t :: Has(r, t) <==> Has(cs, t) || t in tables
    ensures forall t, o :: RowsOf(r, t, o) == RowsOf(cs, t, o)
    ensures TotalRows(r) == TotalRows(cs)
    ensures UniqueTables(cs) ==> UniqueTables(r)
    decreases |tables|
  {
    if |tables| == 0 then cs
    else
      assert forall t :: t in tables <==> t == tables[0] || t in tables[1..];
      EnsureTables(EnsureTableSection(cs, tables[0]), tables[1..])
  }

  // ---------------------------------------------------------------------------
  // Placeholders

  /** A placeholder is any string starting with the sentinel `$`. */
  predicate IsPlaceholder(s: string) {
    Text.StartsWith(s, "$")
  }

  /** The placeholder minted for the `n`-th draw of the fresh-name supply:
      `$<kind>_` followed by at least eight lower-case hexadecimal digits. */
  function Placeholder(kind: string, n: nat): (r: string)
    ensures IsPlaceholder(r)
    ensures Text.StartsWith(r, "$" + kind + "_")
  {
    var r := "$" + kind + "_" + Text.HexPad(n, 8);
    assert r[..1] == "$";
    assert r[..|"$" + kind + "_"|] == "$" + kind + "_";
    r
  }

  /** Distinct draws of the supply give distinct placeholders of a kind. */
  lemma PlaceholderInjective(kind: string, n: nat, m: nat)
    requires Placeholder(kind, n) == Placeholder(kind, m)
    ensures n == m
  {
    var k := |"$" + kind + "_"|;
    assert Placeholder(kind, n)[k..] == Text.HexPad(n, 8);
    assert Placeholder(kind, m)[k..] == Text.HexPad(m, 8);
    Text.HexPadRoundTrip(n, 8);
    Text.HexPadRoundTrip(m, 8);
  }
}

/** The two pieces of the agent's `plan_and_resolve` flow that are pure logic:
    the fallback that turns a plan the model returned in the wrong shape into
    a clarification request, and the collection of the stored forms a
    change-set touches, whose snapshots are fetched before the change. */
module Agent {
  import opened Wrappers
  import opened Values
  import opened ChangeSets
  import Store
  import Sorting

  // ---------------------------------------------------------------------------
  // Plan repair

  /** The JSON the model returned, before it is validated as a plan. */
  datatype Json =
    | JNull
    | JBool(b: bool)
    | JNumber(n: int)
    | JString(s: string)
    | JArray(items: seq<Json>)
    | JObject(members: map<string, Json>)

  /** The dictionary `_attempt_plan_repair` returns. */
  datatype RepairedPlan = RepairedPlan(
    fields: seq<Json>,
    options: seq<Json>,
    logicBlocks: seq<Json>,
    notes: string,
    needsClarification: bool,
    clarificationQuestion: string)

  const RepairQuestion: string :=
    "I could not understand all details of your request. Can you restate it more concretely?"

  const RepairNotesPrefix: string := "Validation error, repaired: "

  /** `raw[key]` is a list. */
  predicate HasList(raw: Json, key: string) {
    raw.JObject? && key in raw.members && raw.members[key].JArray?
  }

  /** `raw[key]` when `raw` is a dictionary and that member is a list, else `[]`. */
  function ListMember(raw: Json, key: string): (r: seq<Json>)
    ensures HasList(raw, key) ==> r == raw.members[key].items
    ensures !HasList(raw, key) ==> r == []
  {
    if HasList(raw, key) then raw.members[key].items else []
  }

  /** `_attempt_plan_repair`: the repaired plan always asks the fixed question;
      it keeps each of the three lists of a dictionary input exactly when that
      member is a list, and is otherwise empty. `errors` is the text of the
      validation errors, rendered into the notes. */
  function AttemptPlanRepair(raw: Json, errors: string): (r: RepairedPlan)
    ensures r.needsClarification && r.clarificationQuestion == RepairQuestion
    ensures r.notes == RepairNotesPrefix + errors
    ensures HasList(raw, "fields") ==> r.fields == raw.members["fields"].items
    ensures HasList(raw, "options") ==> r.options == raw.members["options"].items
    ensures HasList(raw, "logic_blocks") ==> r.logicBlocks == raw.members["logic_blocks"].items
    ensures !HasList(raw, "fields") ==> r.fields == []
    ensures !HasList(raw, "options") ==> r.options == []
    ensures !HasList(raw, "logic_blocks") ==> r.logicBlocks == []
  {
    RepairedPlan(
      ListMember(raw, "fields"),
      ListMember(raw, "options"),
      ListMember(raw, "logic_blocks"),
      RepairNotesPrefix + errors,
      true,
      RepairQuestion)
  }

  /** The repaired plan as the dictionary it is in the source. */
  function PlanJson(p: RepairedPlan): Json {
    JObject(map[
      "fields" := JArray(p.fields),
      "options" := JArray(p.options),
      "logic_blocks" := JArray(p.logicBlocks),
      "notes" := JString(p.notes),
      "needs_clarification" := JBool(p.needsClarification),
      "clarification_question" := JString(p.clarificationQuestion)])
  }

  /** A non-empty list in the repaired plan was a list member of the input. */
  lemma RepairKeepsOnlyLists(raw: Json, errors: string)
    ensures var r := AttemptPlanRepair(raw, errors);
      && (r.fields != [] ==> raw.JObject? && raw.members["fields"] == JArray(r.fields))
      && (r.options != [] ==> raw.JObject? && raw.members["options"] == JArray(r.options))
      && (r.logicBlocks != [] ==> raw.JObject? && raw.members["logic_blocks"] == JArray(r.logicBlocks))
    ensures var r := AttemptPlanRepair(raw, errors);
      !raw.JObject? ==> r.fields == [] && r.options == [] && r.logicBlocks == []
  {
  }

  /** Repairing a repaired plan again keeps its lists and its question: only the
      notes change. */
  lemma RepairStable(raw: Json, errors: string, again: string)
    ensures var r := AttemptPlanRepair(raw, errors);
      AttemptPlanRepair(PlanJson(r), again) == r.(notes := RepairNotesPrefix + again)
  {
    var r := AttemptPlanRepair(raw, errors);
    var j := PlanJson(r);
    assert HasList(j, "fields") && HasList(j, "options") && HasList(j, "logic_blocks");
  }

  // ---------------------------------------------------------------------------
  // Touched forms

  /** A stored id: a string that is not a `$` placeholder. */
  predicate StoredId(v: Value) {
    v.Str? && !IsPlaceholder(v.s)
  }

  /** Row `row` of `op` on `table` names the stored form `x`: through its
      `form_id`, or, for an update or delete of `forms`, through its own `id`. */
  predicate NamesForm(table: Table, op: Op, row: Row, x: string) {
    var formId := Get(row, "form_id", Null);
    var id := Get(row, "id", Null);
    || (formId == Str(x) && StoredId(formId))
    || (table.Name() == "forms" && op != Insert && id == Str(x) && StoredId(id))
  }

  /** Row `row` of `table` is an option item of option set `y`, placeholder or not. */
  predicate NamesOptionSet(table: Table, row: Row, y: string) {
    table.Name() == "option_items" && Get(row, "option_set_id", Null) == Str(y)
  }

  /** Some row of the table section `e` names the stored form `x`. */
  ghost predicate EntryNamesForm(e: Entry, x: string) {
    exists op: Op, k :: 0 <= k < |e.section.Rows(op)| && NamesForm(e.table, op, e.section.Rows(op)[k], x)
  }

  /** Some row of some table of `cs` names the stored form `x`. */
  ghost predicate TouchesForm(cs: ChangeSet, x: string) {
    exists i :: 0 <= i < |cs| && EntryNamesForm(cs[i], x)
  }

  /** Some row of the table section `e` is an option item of option set `y`. */
  ghost predicate EntryNamesOptionSet(e: Entry, y: string) {
    exists op: Op, k :: 0 <= k < |e.section.Rows(op)| && NamesOptionSet(e.table, e.section.Rows(op)[k], y)
  }

  /** Some option-item row of `cs` names option set `y`. */
  ghost predicate TouchesOptionSet(cs: ChangeSet, y: string) {
    exists i :: 0 <= i < |cs| && EntryNamesOptionSet(cs[i], y)
  }

  /** The form ids one row contributes. */
  function RowForms(table: Table, op: Op, row: Row): (r: set<string>)
    ensures forall x :: x in r <==> NamesForm(table, op, row, x)
  {
    var formId := Get(row, "form_id", Null);
    var id := Get(row, "id", Null);
    (if StoredId(formId) then {formId.s} else {})
    + (if table.Name() == "forms" && op != Insert && StoredId(id) then {id.s} else {})
  }

  function RowsForms(table: Table, op: Op, rows: seq<Row>): (r: set<string>)
    ensures forall x :: x in r <==> exists k :: 0 <= k < |rows| && NamesForm(table, op, rows[k], x)
    decreases |rows|
  {
    if |rows| == 0 then {}
    else
      assert forall k :: 1 <= k < |rows| ==> rows[1..][k - 1] == rows[k];
      RowForms(table, op, rows[0]) + RowsForms(table, op, rows[1..])
  }

  /** The form ids of one table's inserts, updates and deletes. */
  function EntryForms(e: Entry): (r: set<string>)
    ensures forall x :: x in r <==> EntryNamesForm(e, x)
    ensures forall x :: x in r ==> !IsPlaceholder(x)
  {
    var s := e.section;
    RowsForms(e.table, Insert, s.Rows(Insert))
    + RowsForms(e.table, Update, s.Rows(Update))
    + RowsForms(e.table, Delete, s.Rows(Delete))
  }

  /** `form_ids` after the loop over the change-set. */
  function TouchedForms(cs: ChangeSet): (r: set<string>)
    ensures forall x :: x in r <==> TouchesForm(cs, x)
    ensures forall x :: x in r ==> !IsPlaceholder(x)
    decreases |cs|
  {
    if |cs| == 0 then {}
    else
      var rest := TouchedForms(cs[1..]);
      TouchesFormSplit(cs);
      EntryForms(cs[0]) + rest
  }

  /** The option-set ids of one table's rows. */
  function RowsOptionSets(table: Table, rows: seq<Row>): (r: set<string>)
    ensures forall y :: y in r <==> exists k :: 0 <= k < |rows| && NamesOptionSet(table, rows[k], y)
    decreases |rows|
  {
    if |rows| == 0 then {}
    else
      var v := Get(rows[0], "option_set_id", Null);
      assert forall k :: 1 <= k < |rows| ==> rows[1..][k - 1] == rows[k];
      (if table.Name() == "option_items" && v.Str? then {v.s} else {}) + RowsOptionSets(table, rows[1..])
  }

  function EntryOptionSets(e: Entry): (r: set<string>)
    ensures forall y :: y in r <==> EntryNamesOptionSet(e, y)
  {
    var s := e.section;
    RowsOptionSets(e.table, s.Rows(Insert)) + RowsOptionSets(e.table, s.Rows(Update))
    + RowsOptionSets(e.table, s.Rows(Delete))
  }

  /** `option_set_ids` after the loop over the change-set. */
  function TouchedOptionSets(cs: ChangeSet): (r: set<string>)
    ensures forall y :: y in r <==> TouchesOptionSet(cs, y)
    decreases |cs|
  {
    if |cs| == 0 then {}
    else
      var rest := TouchedOptionSets(cs[1..]);
      TouchesOptionSetSplit(cs);
      EntryOptionSets(cs[0]) + rest
  }

  lemma TouchesFormSplit(cs: ChangeSet)
    requires |cs| > 0
    ensures forall x :: TouchesForm(cs, x) <==> EntryNamesForm(cs[0], x) || TouchesForm(cs[1..], x)
  {
    assert forall i :: 1 <= i < |cs| ==> cs[1..][i - 1] == cs[i];
    forall x | TouchesForm(cs[1..], x) ensures TouchesForm(cs, x) {
      var i :| 0 <= i < |cs[1..]| && EntryNamesForm(cs[1..][i], x);
      assert EntryNamesForm(cs[i + 1], x);
    }
  }

  lemma TouchesOptionSetSplit(cs: ChangeSet)
    requires |cs| > 0
    ensures forall y :: TouchesOptionSet(cs, y) <==> EntryNamesOptionSet(cs[0], y) || TouchesOptionSet(cs[1..], y)
  {
    assert forall i :: 1 <= i < |cs| ==> cs[1..][i - 1] == cs[i];
    forall y | TouchesOptionSet(cs[1..], y) ensures TouchesOptionSet(cs, y) {
      var i :| 0 <= i < |cs[1..]| && EntryNamesOptionSet(cs[1..][i], y);
      assert EntryNamesOptionSet(cs[i + 1], y);
    }
  }

  // ---------------------------------------------------------------------------
  // Forms reached through option sets

  /** `k` is the first stored option set with id `id`. */
  predicate FirstOptionSet(sets: seq<Store.OptionSet>, id: string, k: int) {
    0 <= k < |sets| && sets[k].id == id && forall j :: 0 <= j < k ==> sets[j].id != id
  }

  /** `SELECT form_id FROM option_sets WHERE id = ?`, kept when the form id is
      non-empty. */
  function OptionSetForm(sets: seq<Store.OptionSet>, id: string): (r: Option<string>)
    ensures r.Some? <==> exists k :: FirstOptionSet(sets, id, k) && sets[k].formId != ""
    ensures r.Some? ==> exists k :: FirstOptionSet(sets, id, k) && sets[k].formId == r.value
    decreases |sets|
  {
    if |sets| == 0 then None
    else if sets[0].id == id then
      assert FirstOptionSet(sets, id, 0);
      assert forall k :: FirstOptionSet(sets, id, k) ==> k == 0;
      if sets[0].formId != "" then Some(sets[0].formId) else None
    else
      var r := OptionSetForm(sets[1..], id);
      assert forall k :: FirstOptionSet(sets[1..], id, k) <==> FirstOptionSet(sets, id, k + 1);
      assert forall k :: FirstOptionSet(sets, id, k) ==> k > 0;
      r
  }

  /** The forms of the option sets whose items the change-set touches. */
  function OptionSetForms(store: Store.Snapshot, ids: set<string>): (r: set<string>)
    ensures forall x :: x in r <==> exists y :: y in ids && OptionSetForm(store.optionSets, y) == Some(x)
  {
    set y | y in ids && OptionSetForm(store.optionSets, y).Some? :: OptionSetForm(store.optionSets, y).value
  }

  /** Every form whose snapshot is taken before the change. */
  function FormsToSnapshot(cs: ChangeSet, store: Store.Snapshot): (r: set<string>)
    ensures forall x :: x in r <==>
      TouchesForm(cs, x) || exists y :: TouchesOptionSet(cs, y) && OptionSetForm(store.optionSets, y) == Some(x)
  {
    TouchedForms(cs) + OptionSetForms(store, TouchedOptionSets(cs))
  }

  // ---------------------------------------------------------------------------
  // The snapshot request

  predicate NoDuplicates(s: seq<string>) {
    forall x :: x in multiset(s) ==> multiset(s)[x] == 1
  }

  /** `sorted(ids)`: every id once, in code-point order. */
  method SortedIds(ids: set<string>) returns (r: seq<string>)
    ensures forall x :: x in r <==> x in ids
    ensures NoDuplicates(r) && |r| == |ids|
    ensures Sorting.SortedBy(r, Sorting.Codes)
  {
    var acc: seq<string> := [];
    var rest := ids;
    while rest != {}
      invariant forall x :: x in ids <==> x in acc || x in rest
      invariant forall x :: x in acc ==> x !in rest
      invariant NoDuplicates(acc)
      invariant |acc| + |rest| == |ids|
      decreases |rest|
    {
      var x :| x in rest;
      assert x !in multiset(acc);
      acc := acc + [x];
      rest := rest - {x};
    }
    r := Sorting.SortBy(acc, Sorting.Codes);
    assert forall x :: x in r <==> x in multiset(r);
    assert forall x :: x in acc <==> x in multiset(acc);
    assert multiset(r) == multiset(acc);
    assert |multiset(r)| == |acc| == |r|;
  }

  /** The tail of `plan_and_resolve`: when any stored form is touched, directly
      or through an option set, the snapshots of exactly those forms are
      requested, each once and in sorted order; otherwise none is. */
  method BeforeSnapshotRequest(cs: ChangeSet, store: Store.Snapshot) returns (request: Option<seq<string>>)
    ensures request.Some? <==> FormsToSnapshot(cs, store) != {}
    ensures request.Some? ==>
      && (forall x :: x in request.value <==> x in FormsToSnapshot(cs, store))
      && NoDuplicates(request.value)
      && Sorting.SortedBy(request.value, Sorting.Codes)
  {
    var formIds := FormsToSnapshot(cs, store);
    if formIds != {} {
      var ids := SortedIds(formIds);
      request := Some(ids);
    } else {
      request := None;
    }
  }

  /** A change-set whose every `form_id` and forms id is a placeholder, and that
      has no option items, requests no snapshot. */
  lemma NewFormsNeedNoSnapshot(cs: ChangeSet, store: Store.Snapshot)
    requires forall i, op: Op, k :: 0 <= i < |cs| && 0 <= k < |cs[i].section.Rows(op)| ==>
      !StoredId(Get(cs[i].section.Rows(op)[k], "form_id", Null))
      && (cs[i].table.Name() == "forms" ==> !StoredId(Get(cs[i].section.Rows(op)[k], "id", Null)))
    requires forall i :: 0 <= i < |cs| ==> cs[i].table.Name() != "option_items"
    ensures FormsToSnapshot(cs, store) == {}
  {
    assert forall x :: !TouchesForm(cs, x);
    assert forall y :: !TouchesOptionSet(cs, y);
  }

  /** A stored form id on any row is requested, and so is the form of an
      option set whose items change; a placeholder never is. */
  lemma SnapshotCoversTouched(cs: ChangeSet, store: Store.Snapshot, i: nat, op: Op, k: nat)
    requires i < |cs| && k < |cs[i].section.Rows(op)|
    ensures var row := cs[i].section.Rows(op)[k];
      StoredId(Get(row, "form_id", Null)) ==> Get(row, "form_id", Null).s in FormsToSnapshot(cs, store)
    ensures var row := cs[i].section.Rows(op)[k];
      var y := Get(row, "option_set_id", Null);
      cs[i].table.Name() == "option_items" && y.Str? && OptionSetForm(store.optionSets, y.s).Some? ==>
        OptionSetForm(store.optionSets, y.s).value in FormsToSnapshot(cs, store)
  {
    var row := cs[i].section.Rows(op)[k];
    var f := Get(row, "form_id", Null);
    if StoredId(f) {
      assert NamesForm(cs[i].table, op, row, f.s);
      assert EntryNamesForm(cs[i], f.s);
    }
    var y := Get(row, "option_set_id", Null);
    if cs[i].table.Name() == "option_items" && y.Str? {
      assert NamesOptionSet(cs[i].table, row, y.s);
      assert EntryNamesOptionSet(cs[i], y.s);
    }
  }
}

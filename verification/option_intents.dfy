/** Option intents: add, rename and deactivate the items of a dropdown field's
    option set, creating and binding a set first when the field has none. */
module OptionIntents {
  import opened Wrappers
  import opened Values
  import opened Text
  import opened Seqs
  import opened Store
  import opened ChangeSets
  import opened Resolution
  import I = IntentSchema

  predicate HasValue(items: seq<OptionItem>, v: string) {
    exists it :: it in items && it.value == v
  }

  predicate HasLabel(items: seq<OptionItem>, l: string) {
    exists it :: it in items && it.labelText == l
  }

  /** `{item["value"]: item for item in items}.get(v)`: the last item with that value. */
  function LastWithValue(items: seq<OptionItem>, v: string): (r: Option<OptionItem>)
    ensures r.Some? ==> r.value in items && r.value.value == v
    ensures r.None? <==> !HasValue(items, v)
    decreases |items|
  {
    if |items| == 0 then None
    else
      var last := items[|items| - 1];
      var init := items[..|items| - 1];
      assert forall it :: it in items <==> it in init || it == last;
      if last.value == v then Some(last) else LastWithValue(init, v)
  }

  /** `{item["label"]: item for item in items}.get(l)`: the last item with that label. */
  function LastWithLabel(items: seq<OptionItem>, l: string): (r: Option<OptionItem>)
    ensures r.Some? ==> r.value in items && r.value.labelText == l
    ensures r.None? <==> !HasLabel(items, l)
    decreases |items|
  {
    if |items| == 0 then None
    else
      var last := items[|items| - 1];
      var init := items[..|items| - 1];
      assert forall it :: it in items <==> it in init || it == last;
      if last.labelText == l then Some(last) else LastWithLabel(init, l)
  }

  /** `existing_by_value.get(key) or existing_by_label.get(key)`: an item is found
      by value first and by label only when no value matches. */
  function FindItem(items: seq<OptionItem>, key: string): (r: Option<OptionItem>)
    ensures r.Some? ==> r.value in items && (r.value.value == key || r.value.labelText == key)
    ensures r.None? <==> !HasValue(items, key) && !HasLabel(items, key)
    ensures HasValue(items, key) ==> r.Some? && r.value.value == key
  {
    match LastWithValue(items, key)
    case Some(it) => Some(it)
    case None => LastWithLabel(items, key)
  }

  /** `max(position for item in items, default=0)`. */
  function MaxItemPosition(items: seq<OptionItem>): (r: int)
    ensures forall it :: it in items ==> it.position <= r
    ensures |items| == 0 ==> r == 0
    ensures |items| > 0 ==> exists it :: it in items && it.position == r
  {
    var positions := seq(|items|, i requires 0 <= i < |items| => items[i].position);
    var m := MaxOr(positions, 0);
    assert forall it :: it in items ==> it.position <= m by {
      forall it | it in items ensures it.position <= m {
        var i :| 0 <= i < |items| && items[i] == it;
        assert positions[i] == it.position;
      }
    }
    if |items| > 0 then
      var i :| 0 <= i < |positions| && positions[i] == m;
      assert items[i] in items;
      m
    else m
  }

  // ---------------------------------------------------------------------------
  // Adding values

  /** The values that no existing item carries, in order (duplicates among them kept). */
  function Fresh(values: seq<string>, items: seq<OptionItem>): (r: seq<string>)
    ensures forall v :: v in r <==> v in values && !HasValue(items, v)
    ensures |r| <= |values|
    decreases |values|
  {
    if |values| == 0 then []
    else (if HasValue(items, values[0]) then [] else [values[0]]) + Fresh(values[1..], items)
  }

  /** A staged option item: value and label both `v`, active, in the set, at `position`. */
  predicate StagedItem(row: Row, v: string, optionSetId: string, position: int) {
    && IsPlaceholder(TextAt(row, "id"))
    && Get(row, "option_set_id", Null) == Str(optionSetId)
    && Get(row, "value", Null) == Str(v) && Get(row, "label", Null) == Str(v)
    && Get(row, "position", Null) == Int(position)
    && Get(row, "is_active", Null) == Int(1)
  }

  /** `rows` stage the values `vals` in order at positions `position + 1`, `position + 2`, .... */
  predicate ItemsStaged(rows: seq<Row>, vals: seq<string>, optionSetId: string, position: int)
    decreases |rows|
  {
    |rows| == |vals|
    && (|rows| > 0 ==>
          StagedItem(rows[0], vals[0], optionSetId, position + 1)
          && ItemsStaged(rows[1..], vals[1..], optionSetId, position + 1))
  }

  lemma StagedStep(before: seq<Row>, mid: seq<Row>, after: seq<Row>, row: Row, v: string, rest: seq<string>, optionSetId: string, position: int)
    requires mid == before + [row] && mid <= after && |after| == |mid| + |rest|
    requires StagedItem(row, v, optionSetId, position + 1)
    requires ItemsStaged(after[|mid|..], rest, optionSetId, position + 1)
    ensures before <= after && |after| == |before| + 1 + |rest|
    ensures ItemsStaged(after[|before|..], [v] + rest, optionSetId, position)
  {
    assert after[|before|..] == [row] + after[|mid|..];
    assert ([v] + rest)[1..] == rest;
  }

  function ItemRow(id: string, optionSetId: string, v: string, position: int): (r: Row)
    ensures IsPlaceholder(id) ==> StagedItem(r, v, optionSetId, position)
  {
    map["id" := Str(id), "option_set_id" := Str(optionSetId), "value" := Str(v), "label" := Str(v),
        "position" := Int(position), "is_active" := Int(1)]
  }

  /** Stages one item insert per value not already present, at consecutive
      positions after `position`. */
  function AddItems(values: seq<string>, items: seq<OptionItem>, optionSetId: string, position: int, st: State): (r: State)
    ensures var before := RowsOf(st.cs, OptionItems, Insert);
            var after := RowsOf(r.cs, OptionItems, Insert);
            var novel := Fresh(values, items);
            && before <= after && |after| == |before| + |novel|
            && ItemsStaged(after[|before|..], novel, optionSetId, position)
    ensures forall t, o :: (t != OptionItems || o != Insert) ==> RowsOf(r.cs, t, o) == RowsOf(st.cs, t, o)
    ensures TotalRows(r.cs) == TotalRows(st.cs) + |Fresh(values, items)|
    ensures forall t :: Has(st.cs, t) ==> Has(r.cs, t)
    ensures st.next <= r.next && (UniqueTables(st.cs) ==> UniqueTables(r.cs))
    decreases |values|
  {
    if |values| == 0 then st
    else if HasValue(items, values[0]) then
      assert Fresh(values, items) == Fresh(values[1..], items);
      AddItems(values[1..], items, optionSetId, position, st)
    else
      var row := ItemRow(Placeholder("opt", st.next), optionSetId, values[0], position + 1);
      var st1 := State(Push(st.cs, OptionItems, Insert, row), st.next + 1);
      var r := AddItems(values[1..], items, optionSetId, position + 1, st1);
      StagedStep(RowsOf(st.cs, OptionItems, Insert), RowsOf(st1.cs, OptionItems, Insert),
                 RowsOf(r.cs, OptionItems, Insert), row, values[0], Fresh(values[1..], items), optionSetId, position);
      r
  }

  // ---------------------------------------------------------------------------
  // Renaming and removing

  /** The rename pairs whose old text names an existing item, in order. */
  function MatchedPairs(pairs: seq<(string, string)>, items: seq<OptionItem>): (r: seq<(string, string)>)
    ensures forall p :: p in r <==> p in pairs && FindItem(items, p.0).Some?
    decreases |pairs|
  {
    if |pairs| == 0 then []
    else (if FindItem(items, pairs[0].0).Some? then [pairs[0]] else []) + MatchedPairs(pairs[1..], items)
  }

  /** The removal values that name an existing item, in order. */
  function MatchedValues(values: seq<string>, items: seq<OptionItem>): (r: seq<string>)
    ensures forall v :: v in r <==> v in values && FindItem(items, v).Some?
    decreases |values|
  {
    if |values| == 0 then []
    else (if FindItem(items, values[0]).Some? then [values[0]] else []) + MatchedValues(values[1..], items)
  }

  function RenameRow(id: string, newText: string): Row {
    map["id" := Str(id), "value" := Str(newText), "label" := Str(newText)]
  }

  function DeactivateRow(id: string): Row {
    map["id" := Str(id), "is_active" := Int(0)]
  }

  /** The update rows for matched renames: each matched item gets the new text as value and label. */
  function RenameRows(matched: seq<(string, string)>, items: seq<OptionItem>): (r: seq<Row>)
    requires forall p :: p in matched ==> FindItem(items, p.0).Some?
    ensures |r| == |matched|
    ensures forall k :: 0 <= k < |r| ==> r[k] == RenameRow(FindItem(items, matched[k].0).value.id, matched[k].1)
    decreases |matched|
  {
    if |matched| == 0 then []
    else
      assert matched[0] in matched;
      [RenameRow(FindItem(items, matched[0].0).value.id, matched[0].1)] + RenameRows(matched[1..], items)
  }

  /** The update rows for matched removals: each matched item is deactivated. */
  function DeactivateRows(matched: seq<string>, items: seq<OptionItem>): (r: seq<Row>)
    requires forall v :: v in matched ==> FindItem(items, v).Some?
    ensures |r| == |matched|
    ensures forall k :: 0 <= k < |r| ==> r[k] == DeactivateRow(FindItem(items, matched[k]).value.id)
    decreases |matched|
  {
    if |matched| == 0 then []
    else
      assert matched[0] in matched;
      [DeactivateRow(FindItem(items, matched[0]).value.id)] + DeactivateRows(matched[1..], items)
  }

  /** One update per rename whose old text matches an item by value or label, in order. */
  function RenameItems(pairs: seq<(string, string)>, items: seq<OptionItem>, st: State): (r: State)
    ensures var before := RowsOf(st.cs, OptionItems, Update);
            var after := RowsOf(r.cs, OptionItems, Update);
            && before <= after
            && after[|before|..] == RenameRows(MatchedPairs(pairs, items), items)
    ensures forall t, o :: (t != OptionItems || o != Update) ==> RowsOf(r.cs, t, o) == RowsOf(st.cs, t, o)
    ensures TotalRows(r.cs) == TotalRows(st.cs) + |MatchedPairs(pairs, items)|
    ensures forall t :: Has(st.cs, t) ==> Has(r.cs, t)
    ensures r.next == st.next && (UniqueTables(st.cs) ==> UniqueTables(r.cs))
    decreases |pairs|
  {
    if |pairs| == 0 then st
    else
      var item := FindItem(items, pairs[0].0);
      if item.None? then
        assert MatchedPairs(pairs, items) == MatchedPairs(pairs[1..], items);
        RenameItems(pairs[1..], items, st)
      else
        var row := RenameRow(item.value.id, pairs[0].1);
        var st1 := st.(cs := Push(st.cs, OptionItems, Update, row));
        var r := RenameItems(pairs[1..], items, st1);
        AppendedSuffix(RowsOf(st.cs, OptionItems, Update), RowsOf(st1.cs, OptionItems, Update),
                       RowsOf(r.cs, OptionItems, Update), row);
        assert MatchedPairs(pairs, items) == [pairs[0]] + MatchedPairs(pairs[1..], items);
        r
  }

  /** One update per removal that matches an item, in order: items are deactivated, never deleted. */
  function RemoveItems(values: seq<string>, items: seq<OptionItem>, st: State): (r: State)
    ensures var before := RowsOf(st.cs, OptionItems, Update);
            var after := RowsOf(r.cs, OptionItems, Update);
            && before <= after
            && after[|before|..] == DeactivateRows(MatchedValues(values, items), items)
    ensures forall t, o :: (t != OptionItems || o != Update) ==> RowsOf(r.cs, t, o) == RowsOf(st.cs, t, o)
    ensures TotalRows(r.cs) == TotalRows(st.cs) + |MatchedValues(values, items)|
    ensures forall t :: Has(st.cs, t) ==> Has(r.cs, t)
    ensures r.next == st.next && (UniqueTables(st.cs) ==> UniqueTables(r.cs))
    decreases |values|
  {
    if |values| == 0 then st
    else
      var item := FindItem(items, values[0]);
      if item.None? then
        assert MatchedValues(values, items) == MatchedValues(values[1..], items);
        RemoveItems(values[1..], items, st)
      else
        var row := DeactivateRow(item.value.id);
        var st1 := st.(cs := Push(st.cs, OptionItems, Update, row));
        var r := RemoveItems(values[1..], items, st1);
        AppendedSuffix(RowsOf(st.cs, OptionItems, Update), RowsOf(st1.cs, OptionItems, Update),
                       RowsOf(r.cs, OptionItems, Update), row);
        assert MatchedValues(values, items) == [values[0]] + MatchedValues(values[1..], items);
        r
  }

  // ---------------------------------------------------------------------------
  // The handler

  /** The field reference put in a not-found clarification: code, else label, else a generic phrase. */
  function Wanted(intent: I.OptionIntent): string {
    if Present(intent.fieldCode) then intent.fieldCode.value
    else if Present(intent.fieldLabel) then intent.fieldLabel.value
    else "the dropdown field"
  }

  function OptionSetRow(id: string, formId: string, field: FieldRef): Row {
    map["id" := Str(id), "form_id" := Str(formId), "name" := Str(field.labelText + " options")]
  }

  function BindingRow(field: FieldRef, optionSetId: string): Row {
    map["field_id" := Str(field.id), "option_set_id" := Str(optionSetId), "display_pattern" := Null]
  }

  const OptionTables: seq<Table> := [OptionSets, FieldOptionBinding, OptionItems]

  /** A new option set for the field, named after its label, and the binding to it;
      the set takes draw `next` of the placeholder supply. */
  function NewOptionSet(st: State, formId: string, field: FieldRef): (r: (string, State))
    ensures IsPlaceholder(r.0) && r.1.next == st.next + 1
    ensures RowsOf(r.1.cs, OptionSets, Insert) == RowsOf(st.cs, OptionSets, Insert) + [OptionSetRow(r.0, formId, field)]
    ensures RowsOf(r.1.cs, FieldOptionBinding, Insert) == RowsOf(st.cs, FieldOptionBinding, Insert) + [BindingRow(field, r.0)]
    ensures TotalRows(r.1.cs) == TotalRows(st.cs) + 2
    ensures forall t, o :: (o != Insert || (t != OptionSets && t != FieldOptionBinding)) ==> RowsOf(r.1.cs, t, o) == RowsOf(st.cs, t, o)
    ensures forall t :: Has(st.cs, t) ==> Has(r.1.cs, t)
    ensures UniqueTables(st.cs) ==> UniqueTables(r.1.cs)
  {
    var id := Placeholder("optset", st.next);
    var cs1 := Push(st.cs, OptionSets, Insert, OptionSetRow(id, formId, field));
    var cs2 := Push(cs1, FieldOptionBinding, Insert, BindingRow(field, id));
    (id, State(cs2, st.next + 1))
  }

  /** The three option tables exist; a field without a stored option set gets a new
      set and a binding to it. Returns the set's id. */
  function StageOptionSet(store: Snapshot, st: State, formId: string, field: FieldRef): (r: (string, State))
    ensures OptionSetForField(store, field.id).Some? ==>
      r.0 == OptionSetForField(store, field.id).value.id && TotalRows(r.1.cs) == TotalRows(st.cs)
      && forall t, o :: RowsOf(r.1.cs, t, o) == RowsOf(st.cs, t, o)
    ensures OptionSetForField(store, field.id).None? ==> r == NewOptionSet(st.(cs := EnsureTables(st.cs, OptionTables)), formId, field)
    ensures forall t :: t in OptionTables ==> Has(r.1.cs, t)
    ensures st.next <= r.1.next && (UniqueTables(st.cs) ==> UniqueTables(r.1.cs))
  {
    var st1 := st.(cs := EnsureTables(st.cs, OptionTables));
    match OptionSetForField(store, field.id)
    case Some(existing) => (existing.id, st1)
    case None => NewOptionSet(st1, formId, field)
  }

  /** Renames, then removals: updates only, each aimed at the id of the item its
      key matched. */
  function AdjustItems(intent: I.OptionIntent, items: seq<OptionItem>, st: State): (r: State)
    ensures RowsOf(r.cs, OptionItems, Update) == RowsOf(st.cs, OptionItems, Update)
              + RenameRows(MatchedPairs(intent.renameMap, items), items)
              + DeactivateRows(MatchedValues(intent.removeValues, items), items)
    ensures TotalRows(r.cs) == TotalRows(st.cs) + |MatchedPairs(intent.renameMap, items)| + |MatchedValues(intent.removeValues, items)|
    ensures forall t, o :: (t != OptionItems || o != Update) ==> RowsOf(r.cs, t, o) == RowsOf(st.cs, t, o)
    ensures forall t :: Has(st.cs, t) ==> Has(r.cs, t)
    ensures st.next == r.next && (UniqueTables(st.cs) ==> UniqueTables(r.cs))
  {
    var st1 := RenameItems(intent.renameMap, items, st);
    var r := RemoveItems(intent.removeValues, items, st1);
    Extended(RowsOf(st.cs, OptionItems, Update), RowsOf(st1.cs, OptionItems, Update));
    Extended(RowsOf(st1.cs, OptionItems, Update), RowsOf(r.cs, OptionItems, Update));
    r
  }

  /** A sequence that extends another is that one followed by what it gained. */
  lemma Extended<T>(a: seq<T>, b: seq<T>)
    requires a <= b
    ensures b == a + b[|a|..]
  {
  }

  /** The item edits of one intent: additions (insert operations only), then
      renames, then removals. Added items join `optionSetId` above the highest
      existing position; renames and removals update the matched items' ids. */
  function EditItems(intent: I.OptionIntent, items: seq<OptionItem>, optionSetId: string, st: State): (r: State)
    ensures intent.operation.Insert? ==>
      var before := RowsOf(st.cs, OptionItems, Insert);
      var after := RowsOf(r.cs, OptionItems, Insert);
      before <= after && ItemsStaged(after[|before|..], Fresh(intent.addValues, items), optionSetId, MaxItemPosition(items))
    ensures RowsOf(r.cs, OptionItems, Update) == RowsOf(st.cs, OptionItems, Update)
              + RenameRows(MatchedPairs(intent.renameMap, items), items)
              + DeactivateRows(MatchedValues(intent.removeValues, items), items)
    ensures TotalRows(r.cs) == TotalRows(st.cs)
              + (if intent.operation.Insert? then |Fresh(intent.addValues, items)| else 0)
              + |MatchedPairs(intent.renameMap, items)| + |MatchedValues(intent.removeValues, items)|
    ensures RowsOf(r.cs, OptionItems, Delete) == RowsOf(st.cs, OptionItems, Delete)
    ensures !intent.operation.Insert? ==> RowsOf(r.cs, OptionItems, Insert) == RowsOf(st.cs, OptionItems, Insert)
    ensures forall t, o :: t != OptionItems ==> RowsOf(r.cs, t, o) == RowsOf(st.cs, t, o)
    ensures forall t :: Has(st.cs, t) ==> Has(r.cs, t)
    ensures st.next <= r.next && (UniqueTables(st.cs) ==> UniqueTables(r.cs))
  {
    var added := if intent.operation.Insert? then |Fresh(intent.addValues, items)| else 0;
    var st1 := if intent.operation.Insert?
               then AddItems(intent.addValues, items, optionSetId, MaxItemPosition(items), st)
               else st;
    assert TotalRows(st1.cs) == TotalRows(st.cs) + added;
    assert RowsOf(st1.cs, OptionItems, Delete) == RowsOf(st.cs, OptionItems, Delete);
    var r := AdjustItems(intent, items, st1);
    assert RowsOf(r.cs, OptionItems, Delete) == RowsOf(st1.cs, OptionItems, Delete);
    assert RowsOf(r.cs, OptionItems, Insert) == RowsOf(st1.cs, OptionItems, Insert);
    assert RowsOf(st1.cs, OptionItems, Update) == RowsOf(st.cs, OptionItems, Update);
    r
  }

  /** The option set and item edits for a resolved field: added items join the
      field's bound set, or the set created for it, above its highest stored
      position. */
  function EditFieldOptions(intent: I.OptionIntent, store: Snapshot, st: State, formId: string, field: FieldRef): (r: State)
    ensures var items := OptionItemsForField(store, field.id);
            var setId := StageOptionSet(store, st, formId, field).0;
            var before := RowsOf(st.cs, OptionItems, Insert);
            var after := RowsOf(r.cs, OptionItems, Insert);
            intent.operation.Insert? ==>
              before <= after && ItemsStaged(after[|before|..], Fresh(intent.addValues, items), setId, MaxItemPosition(items))
    ensures var items := OptionItemsForField(store, field.id);
            RowsOf(r.cs, OptionItems, Update) == RowsOf(st.cs, OptionItems, Update)
              + RenameRows(MatchedPairs(intent.renameMap, items), items)
              + DeactivateRows(MatchedValues(intent.removeValues, items), items)
    ensures var items := OptionItemsForField(store, field.id);
            TotalRows(r.cs) == TotalRows(st.cs)
              + (if OptionSetForField(store, field.id).None? then 2 else 0)
              + (if intent.operation.Insert? then |Fresh(intent.addValues, items)| else 0)
              + |MatchedPairs(intent.renameMap, items)| + |MatchedValues(intent.removeValues, items)|
    ensures forall t :: t in OptionTables ==> Has(r.cs, t)
    ensures forall t, o :: t !in OptionTables ==> RowsOf(r.cs, t, o) == RowsOf(st.cs, t, o)
    ensures st.next <= r.next && (UniqueTables(st.cs) ==> UniqueTables(r.cs))
  {
    var staged := StageOptionSet(store, st, formId, field);
    var items := OptionItemsForField(store, field.id);
    var r := EditItems(intent, items, staged.0, staged.1);
    StageRows(store, st, formId, field);
    assert OptionItems in OptionTables;
    r
  }

  /** `_apply_option_intents` for one intent: resolve the form and the field, then edit its options. */
  function ApplyOptionIntent(intent: I.OptionIntent, store: Snapshot, st: State, nf: NewFormIds): (r: Result<State, BuildError>)
    ensures ResolveFormId(store, intent.targetForm, nf).Err? ==> r == Err(ResolveFormId(store, intent.targetForm, nf).error)
    ensures ResolveFormId(store, intent.targetForm, nf).Ok? ==>
      var formId := ResolveFormId(store, intent.targetForm, nf).value;
      var field := ResolveField(store, st.cs, formId, intent.fieldCode, intent.fieldLabel);
      && (field.Err? ==> r == Err(field.error))
      && (field.Ok? && field.value.None? ==> r == Err(FieldNotFound(Wanted(intent), FieldsOfForm(store, formId))))
      && (field.Ok? && field.value.Some? ==> r == Ok(EditFieldOptions(intent, store, st, formId, field.value.value)))
  {
    var formId :- ResolveFormId(store, intent.targetForm, nf);
    var field :- ResolveField(store, st.cs, formId, intent.fieldCode, intent.fieldLabel);
    if field.None? then Err(FieldNotFound(Wanted(intent), FieldsOfForm(store, formId)))
    else Ok(EditFieldOptions(intent, store, st, formId, field.value))
  }

  /** The option intents in order; the first failure aborts the build. */
  function ApplyOptionIntents(intents: seq<I.OptionIntent>, store: Snapshot, st: State, nf: NewFormIds): (r: Result<State, BuildError>)
    ensures r.Ok? ==> forall t, o :: t !in OptionTables ==> RowsOf(r.value.cs, t, o) == RowsOf(st.cs, t, o)
    ensures r.Ok? ==> TotalRows(st.cs) <= TotalRows(r.value.cs)
    ensures r.Ok? && |intents| > 0 ==> forall t :: t in OptionTables ==> Has(r.value.cs, t)
    ensures r.Ok? ==> st.next <= r.value.next && (UniqueTables(st.cs) ==> UniqueTables(r.value.cs))
    decreases |intents|
  {
    if |intents| == 0 then Ok(st)
    else
      var st1 :- ApplyOptionIntent(intents[0], store, st, nf);
      var r := ApplyOptionIntents(intents[1..], store, st1, nf);
      assert r.Ok? ==> forall t :: t in OptionTables ==> Has(r.value.cs, t) by {
        if r.Ok? && |intents| == 1 { assert r.value == st1; }
      }
      r
  }

  // ---------------------------------------------------------------------------
  // Properties

  /** Option intents never delete items: removal is a deactivating update, and
      only insert operations add items. */
  lemma OptionEditsNeverDelete(intent: I.OptionIntent, store: Snapshot, st: State, formId: string, field: FieldRef)
    ensures var r := EditFieldOptions(intent, store, st, formId, field);
            && RowsOf(r.cs, OptionItems, Delete) == RowsOf(st.cs, OptionItems, Delete)
            && (!intent.operation.Insert? ==> RowsOf(r.cs, OptionItems, Insert) == RowsOf(st.cs, OptionItems, Insert))
  {
    var staged := StageOptionSet(store, st, formId, field);
    StageRows(store, st, formId, field);
    var r := EditItems(intent, OptionItemsForField(store, field.id), staged.0, staged.1);
    assert r == EditFieldOptions(intent, store, st, formId, field);
  }

  /** Staging the option set adds two rows when it creates the set, and touches
      no option item and no table outside the option tables. */
  lemma StageRows(store: Snapshot, st: State, formId: string, field: FieldRef)
    ensures var staged := StageOptionSet(store, st, formId, field);
            && TotalRows(staged.1.cs) == TotalRows(st.cs) + (if OptionSetForField(store, field.id).None? then 2 else 0)
            && (forall o :: RowsOf(staged.1.cs, OptionItems, o) == RowsOf(st.cs, OptionItems, o))
            && (forall t, o :: t !in OptionTables ==> RowsOf(staged.1.cs, t, o) == RowsOf(st.cs, t, o))
  {
    if OptionSetForField(store, field.id).None? {
      var st1 := st.(cs := EnsureTables(st.cs, OptionTables));
      assert StageOptionSet(store, st, formId, field) == NewOptionSet(st1, formId, field);
      assert OptionSets in OptionTables && FieldOptionBinding in OptionTables;
    }
  }

  /** A rename batch whose keys match no item stages nothing. */
  lemma {:induction false} UnmatchedRenamesAreNoop(pairs: seq<(string, string)>, items: seq<OptionItem>, st: State)
    requires forall p :: p in pairs ==> !HasValue(items, p.0) && !HasLabel(items, p.0)
    ensures RenameItems(pairs, items, st) == st
    decreases |pairs|
  {
    if |pairs| > 0 {
      assert pairs[0] in pairs;
      assert forall p :: p in pairs[1..] ==> p in pairs;
      UnmatchedRenamesAreNoop(pairs[1..], items, st);
    }
  }

  /** A removal batch whose values match no item stages nothing. */
  lemma {:induction false} UnmatchedRemovalsAreNoop(values: seq<string>, items: seq<OptionItem>, st: State)
    requires forall v :: v in values ==> !HasValue(items, v) && !HasLabel(items, v)
    ensures RemoveItems(values, items, st) == st
    decreases |values|
  {
    if |values| > 0 {
      assert values[0] in values;
      assert forall v :: v in values[1..] ==> v in values;
      UnmatchedRemovalsAreNoop(values[1..], items, st);
    }
  }

  lemma {:induction false} ItemsStagedAt(rows: seq<Row>, vals: seq<string>, optionSetId: string, position: int, k: nat)
    requires ItemsStaged(rows, vals, optionSetId, position) && k < |rows|
    ensures StagedItem(rows[k], vals[k], optionSetId, position + k + 1)
    decreases k
  {
    if k > 0 {
      ItemsStagedAt(rows[1..], vals[1..], optionSetId, position + 1, k - 1);
    }
  }

  /** The k-th row `AddItems` appends stages the k-th fresh value at `position + k + 1`. */
  lemma AddedRow(values: seq<string>, items: seq<OptionItem>, optionSetId: string, position: int, st: State, k: nat)
    requires k < |Fresh(values, items)|
    ensures var before := RowsOf(st.cs, OptionItems, Insert);
            var after := RowsOf(AddItems(values, items, optionSetId, position, st).cs, OptionItems, Insert);
            |before| + k < |after| && StagedItem(after[|before| + k], Fresh(values, items)[k], optionSetId, position + k + 1)
  {
    var before := RowsOf(st.cs, OptionItems, Insert);
    var after := RowsOf(AddItems(values, items, optionSetId, position, st).cs, OptionItems, Insert);
    ItemsStagedAt(after[|before|..], Fresh(values, items), optionSetId, position, k);
    SliceAt(after, |before|, k);
  }

  /** The k-th added item joins the given set with the k-th fresh value, at
      position `max + k + 1`: its value is not one an existing item already
      carries, and it sits above every existing item. */
  lemma AddedItemsAreNew(values: seq<string>, items: seq<OptionItem>, optionSetId: string, st: State, k: nat)
    requires k < |Fresh(values, items)|
    ensures var before := RowsOf(st.cs, OptionItems, Insert);
            var row := RowsOf(AddItems(values, items, optionSetId, MaxItemPosition(items), st).cs, OptionItems, Insert)[|before| + k];
            && Get(row, "option_set_id", Null) == Str(optionSetId)
            && Get(row, "value", Null) == Str(Fresh(values, items)[k])
            && Get(row, "position", Null) == Int(MaxItemPosition(items) + k + 1)
            && (forall it :: it in items ==> Get(row, "value", Null) != Str(it.value))
            && (forall it :: it in items ==> it.position < MaxItemPosition(items) + k + 1)
  {
    var novel := Fresh(values, items);
    AddedRow(values, items, optionSetId, MaxItemPosition(items), st, k);
    assert novel[k] in novel;
  }

  lemma {:induction false} FreshAgainstNoItems(values: seq<string>)
    ensures Fresh(values, []) == values
    decreases |values|
  {
    if |values| > 0 {
      FreshAgainstNoItems(values[1..]);
      assert [values[0]] + values[1..] == values;
    }
  }

  /** `add_values` is deduplicated against existing items only: a value listed
      twice is staged twice. */
  lemma RepeatedAddValueStagedTwice(v: string, optionSetId: string, st: State)
    ensures var before := RowsOf(st.cs, OptionItems, Insert);
            var after := RowsOf(AddItems([v, v], [], optionSetId, 0, st).cs, OptionItems, Insert);
            && |after| == |before| + 2
            && Get(after[|before|], "value", Null) == Str(v) && Get(after[|before| + 1], "value", Null) == Str(v)
  {
    var before := RowsOf(st.cs, OptionItems, Insert);
    var after := RowsOf(AddItems([v, v], [], optionSetId, 0, st).cs, OptionItems, Insert);
    FreshAgainstNoItems([v, v]);
    ItemsStagedAt(after[|before|..], [v, v], optionSetId, 0, 0);
    ItemsStagedAt(after[|before|..], [v, v], optionSetId, 0, 1);
    SliceAt(after, |before|, 0);
    SliceAt(after, |before|, 1);
  }
}

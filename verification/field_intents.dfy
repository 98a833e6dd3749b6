/** Field intents: each one stages exactly one `form_fields` row — an insert
    placed on a page, a partial update, or a delete by id. */
module FieldIntents {
  import opened Wrappers
  import opened Values
  import opened Text
  import opened Seqs
  import opened Sorting
  import opened Store
  import opened ChangeSets
  import opened Resolution
  import I = IntentSchema

  /** `1 if v else 0`. */
  function Flag(v: Value): (r: Value)
    ensures r == Int(1) || r == Int(0)
    ensures r == Int(1) <==> Truthy(v)
  {
    if Truthy(v) then Int(1) else Int(0)
  }

  /** Where an inserted field goes: its page id and its position on that page. */
  datatype Placement = Placement(pageId: Value, position: int)

  /** Page inserts staged for a form. */
  function StagedPagesOf(cs: ChangeSet, formId: string): (r: seq<Row>)
    ensures forall p :: p in r <==> p in RowsOf(cs, FormPages, Insert) && Get(p, "form_id", Null) == Str(formId)
  {
    Filter(RowsOf(cs, FormPages, Insert), (p: Row) => Get(p, "form_id", Null) == Str(formId))
  }

  predicate OnPage(row: Row, pageId: Value) {
    Get(row, "page_id", Null) == pageId
  }

  /** Field inserts staged on a page. */
  function StagedOnPage(cs: ChangeSet, pageId: Value): (r: seq<Row>)
    ensures forall f :: f in r <==> f in RowsOf(cs, FormFields, Insert) && OnPage(f, pageId)
  {
    Filter(RowsOf(cs, FormFields, Insert), (f: Row) => OnPage(f, pageId))
  }

  /** A page of the form with no other page of the form after it. */
  predicate IsLastPage(store: Snapshot, formId: string, page: Page) {
    && page in store.pages && page.formId == formId
    && forall q :: q in store.pages && q.formId == formId ==> q.position <= page.position
  }

  /** `n` is after every stored field on the page: one past the highest, or 1 on an empty page. */
  predicate NextPosition(store: Snapshot, formId: string, pageId: string, n: int) {
    && (forall f :: f in store.fields && f.formId == formId && f.pageId == pageId ==> f.position < n)
    && ((exists f :: f in store.fields && f.formId == formId && f.pageId == pageId && f.position == n - 1)
        || (n == 1 && forall f :: f in store.fields ==> !(f.formId == formId && f.pageId == pageId)))
  }

  /** Placement on a form staged in this batch: its first staged page, after the
      fields already staged on that page. */
  function PlaceOnStagedForm(cs: ChangeSet, formId: string): (r: Result<Placement, BuildError>)
    ensures r.Err? <==> |StagedPagesOf(cs, formId)| == 0
    ensures r.Err? ==> r.error == NewFormHasNoPages(formId)
    ensures r.Ok? ==>
      && r.value.pageId == Get(StagedPagesOf(cs, formId)[0], "id", Null)
      && r.value.position == |StagedOnPage(cs, r.value.pageId)| + 1
  {
    var pages := StagedPagesOf(cs, formId);
    if |pages| == 0 then Err(NewFormHasNoPages(formId))
    else
      var pageId := Get(pages[0], "id", Null);
      Ok(Placement(pageId, |StagedOnPage(cs, pageId)| + 1))
  }

  /** Placement on a stored form: its last page, after the highest stored position there. */
  function PlaceOnStoredForm(store: Snapshot, formId: string): (r: Result<Placement, BuildError>)
    ensures r.Err? <==> forall p :: p in store.pages ==> p.formId != formId
    ensures r.Err? ==> r.error == FormHasNoPages(formId)
    ensures r.Ok? ==>
      exists page :: IsLastPage(store, formId, page) && r.value.pageId == Str(page.id)
                     && NextPosition(store, formId, page.id, r.value.position)
  {
    match LastPage(store, formId)
    case None => Err(FormHasNoPages(formId))
    case Some(page) =>
      assert IsLastPage(store, formId, page);
      var position := match MaxPositionOnPage(store, formId, page.id)
                      case None => 1
                      case Some(m) => m + 1;
      Ok(Placement(Str(page.id), position))
  }

  /** Page and position of a new field, by whether the form is staged or stored. */
  function PlaceField(store: Snapshot, cs: ChangeSet, formId: string): Result<Placement, BuildError> {
    if IsPlaceholder(formId) then PlaceOnStagedForm(cs, formId) else PlaceOnStoredForm(store, formId)
  }

  /** The code of an inserted field — its code, else its label, else a fresh
      `field_` code — with the state of the fresh-name supply after it. */
  function NewCode(intent: I.FieldIntent, next: nat): (r: (string, nat))
    ensures Present(intent.fieldCode) ==> r == (intent.fieldCode.value, next)
    ensures !Present(intent.fieldCode) && Present(intent.fieldLabel) ==> r == (intent.fieldLabel.value, next)
    ensures !Present(intent.fieldCode) && !Present(intent.fieldLabel) ==>
      StartsWith(r.0, "field_") && r.1 == next + 1
  {
    var c := OrElse(intent.fieldCode, intent.fieldLabel);
    if Present(c) then (c.value, next) else ("field_" + HexPad(next, 6), next + 1)
  }

  /** The label of an inserted field: its label, else its code title-cased with underscores as spaces. */
  function NewLabel(intent: I.FieldIntent, code: string): string {
    if Present(intent.fieldLabel) then intent.fieldLabel.value else Title(ReplaceChar(code, '_', ' '))
  }

  function InsertRow(intent: I.FieldIntent, formId: string, typeId: string, at: Placement, id: string, code: string): (r: Row)
    ensures Get(r, "id", Null) == Str(id) && Get(r, "form_id", Null) == Str(formId)
    ensures Get(r, "page_id", Null) == at.pageId && Get(r, "position", Null) == Int(at.position)
  {
    var props := intent.properties;
    map["id" := Str(id),
        "form_id" := Str(formId),
        "page_id" := at.pageId,
        "type_id" := Str(typeId),
        "code" := Str(code),
        "label" := Str(NewLabel(intent, code)),
        "help_text" := Get(props, "help_text", Null),
        "position" := Int(at.position),
        "required" := Flag(Get(props, "required", Null)),
        "read_only" := Flag(Get(props, "read_only", Null)),
        "placeholder" := Get(props, "placeholder", Null),
        "default_value" := Get(props, "default_value", Null),
        "validation_schema" := Get(props, "validation_schema", Null),
        "visible_by_default" := Flag(Get(props, "visible_by_default", Bool(true)))]
  }

  /** The partial update row: the id, the label when one is given, and the
      `required`, `read_only` and `placeholder` properties that are set. */
  function UpdateRow(id: string, intent: I.FieldIntent): (r: Row)
    ensures "id" in r && r["id"] == Str(id)
    ensures "label" in r <==> Present(intent.fieldLabel)
    ensures Present(intent.fieldLabel) ==> r["label"] == Str(intent.fieldLabel.value)
    ensures forall k :: k in r ==> k in {"id", "label", "required", "read_only", "placeholder"}
    ensures forall k :: k in {"required", "read_only", "placeholder"} ==> (k in r <==> k in intent.properties)
    ensures "required" in r ==> r["required"] == Flag(intent.properties["required"])
    ensures "read_only" in r ==> r["read_only"] == Flag(intent.properties["read_only"])
    ensures "placeholder" in r ==> r["placeholder"] == intent.properties["placeholder"]
  {
    var p := intent.properties;
    var r0: Row := map["id" := Str(id)];
    var r1 := if Present(intent.fieldLabel) then r0["label" := Str(intent.fieldLabel.value)] else r0;
    var r2 := if "required" in p then r1["required" := Flag(p["required"])] else r1;
    var r3 := if "read_only" in p then r2["read_only" := Flag(p["read_only"])] else r2;
    if "placeholder" in p then r3["placeholder" := p["placeholder"]] else r3
  }

  /** Stages the insert of a new field on a resolved form. */
  function InsertField(intent: I.FieldIntent, store: Snapshot, st: State, formId: string): (r: Result<State, BuildError>)
    ensures !Present(intent.fieldType) ==> r == Err(FieldTypeRequired)
    ensures Present(intent.fieldType) && FieldTypeByKey(store, intent.fieldType.value).None? ==>
      r == Err(UnknownFieldType(intent.fieldType.value))
    ensures Present(intent.fieldType) && FieldTypeByKey(store, intent.fieldType.value).Some? ==>
      (r.Ok? <==> PlaceField(store, st.cs, formId).Ok?)
    ensures r.Ok? ==>
      && Present(intent.fieldType) && FieldTypeByKey(store, intent.fieldType.value).Some?
      && PlaceField(store, st.cs, formId).Ok?
      && var typeId := FieldTypeByKey(store, intent.fieldType.value).value.id;
         var code := NewCode(intent, st.next);
         RowsOf(r.value.cs, FormFields, Insert) == RowsOf(st.cs, FormFields, Insert)
           + [InsertRow(intent, formId, typeId, PlaceField(store, st.cs, formId).value, Placeholder("fld", code.1), code.0)]
    ensures r.Ok? ==> forall t, o :: (t != FormFields || o != Insert) ==> RowsOf(r.value.cs, t, o) == RowsOf(st.cs, t, o)
    ensures r.Ok? ==> TotalRows(r.value.cs) == TotalRows(st.cs) + 1
    ensures r.Ok? ==> st.next < r.value.next && (UniqueTables(st.cs) ==> UniqueTables(r.value.cs))
  {
    if !Present(intent.fieldType) then Err(FieldTypeRequired)
    else
      var ft := FieldTypeByKey(store, intent.fieldType.value);
      if ft.None? then Err(UnknownFieldType(intent.fieldType.value))
      else
        var at :- PlaceField(store, st.cs, formId);
        var (code, next) := NewCode(intent, st.next);
        var id := Placeholder("fld", next);
        var row := InsertRow(intent, formId, ft.value.id, at, id, code);
        Ok(State(Push(st.cs, FormFields, Insert, row), next + 1))
  }

  /** `_apply_field_intents` for one intent. */
  function ApplyFieldIntent(intent: I.FieldIntent, store: Snapshot, st: State, nf: NewFormIds): (r: Result<State, BuildError>)
    ensures ResolveFormId(store, intent.targetForm, nf).Err? ==> r == Err(ResolveFormId(store, intent.targetForm, nf).error)
    ensures ResolveFormId(store, intent.targetForm, nf).Ok? ==>
      var formId := ResolveFormId(store, intent.targetForm, nf).value;
      var existing := ResolveField(store, st.cs, formId, intent.fieldCode, intent.fieldLabel);
      && (existing.Err? ==> r == Err(existing.error))
      && (existing.Ok? && intent.operation.Insert? ==>
            r == InsertField(intent, store, st.(cs := EnsureTableSection(st.cs, FormFields)), formId))
      && (existing.Ok? && !intent.operation.Insert? && existing.value.None? ==>
            r == Err(if intent.operation.Update? then FieldUpdateUnresolved else FieldDeleteUnresolved))
      && (existing.Ok? && intent.operation.Update? && existing.value.Some? ==>
            r.Ok? && RowsOf(r.value.cs, FormFields, Update)
                     == RowsOf(st.cs, FormFields, Update) + [UpdateRow(existing.value.value.id, intent)])
      && (existing.Ok? && intent.operation.Delete? && existing.value.Some? ==>
            r.Ok? && RowsOf(r.value.cs, FormFields, Delete)
                     == RowsOf(st.cs, FormFields, Delete) + [map["id" := Str(existing.value.value.id)]])
    ensures r.Ok? ==> TotalRows(r.value.cs) == TotalRows(st.cs) + 1
    ensures r.Ok? ==> Has(r.value.cs, FormFields)
    ensures r.Ok? ==> forall t, o :: t != FormFields ==> RowsOf(r.value.cs, t, o) == RowsOf(st.cs, t, o)
    ensures r.Ok? ==> st.next <= r.value.next && (UniqueTables(st.cs) ==> UniqueTables(r.value.cs))
  {
    var formId :- ResolveFormId(store, intent.targetForm, nf);
    var existing :- ResolveField(store, st.cs, formId, intent.fieldCode, intent.fieldLabel);
    var cs := EnsureTableSection(st.cs, FormFields);
    match intent.operation
    case Insert =>
      var r := InsertField(intent, store, st.(cs := cs), formId);
      assert r.Ok? ==> |RowsOf(r.value.cs, FormFields, Insert)| > 0;
      r
    case Update =>
      if existing.None? then Err(FieldUpdateUnresolved)
      else
        var row := UpdateRow(existing.value.id, intent);
        Ok(st.(cs := Push(cs, FormFields, Update, row)))
    case Delete =>
      if existing.None? then Err(FieldDeleteUnresolved)
      else
        var row := map["id" := Str(existing.value.id)];
        Ok(st.(cs := Push(cs, FormFields, Delete, row)))
  }

  /** The field intents in order; the first failure aborts the build. */
  function ApplyFieldIntents(intents: seq<I.FieldIntent>, store: Snapshot, st: State, nf: NewFormIds): (r: Result<State, BuildError>)
    ensures r.Ok? ==> TotalRows(r.value.cs) == TotalRows(st.cs) + |intents|
    ensures r.Ok? && |intents| > 0 ==> Has(r.value.cs, FormFields)
    ensures r.Ok? ==> forall t, o :: t != FormFields ==> RowsOf(r.value.cs, t, o) == RowsOf(st.cs, t, o)
    ensures r.Ok? ==> st.next <= r.value.next && (UniqueTables(st.cs) ==> UniqueTables(r.value.cs))
    decreases |intents|
  {
    if |intents| == 0 then Ok(st)
    else
      var st1 :- ApplyFieldIntent(intents[0], store, st, nf);
      var r := ApplyFieldIntents(intents[1..], store, st1, nf);
      assert r.Ok? ==> Has(r.value.cs, FormFields) by {
        if r.Ok? && |intents| > 1 {
        } else if r.Ok? {
          assert r.value == st1;
        }
      }
      r
  }

  // ---------------------------------------------------------------------------
  // Positions

  /** The rows carry positions 1, 2, 3, ... in order. */
  predicate Numbered(rows: seq<Row>) {
    forall i :: 0 <= i < |rows| ==> Get(rows[i], "position", Null) == Int(i + 1)
  }

  lemma StagedOnPageAppend(before: ChangeSet, after: ChangeSet, row: Row, pageId: Value)
    requires RowsOf(after, FormFields, Insert) == RowsOf(before, FormFields, Insert) + [row]
    ensures StagedOnPage(after, pageId) == StagedOnPage(before, pageId) + (if OnPage(row, pageId) then [row] else [])
  {
    FilterAppend(RowsOf(before, FormFields, Insert), row, (f: Row) => OnPage(f, pageId));
  }

  lemma NumberedAppend(rows: seq<Row>, row: Row)
    requires Numbered(rows) && Get(row, "position", Null) == Int(|rows| + 1)
    ensures Numbered(rows + [row])
  {
    forall i | 0 <= i < |rows| + 1 ensures Get((rows + [row])[i], "position", Null) == Int(i + 1) {
      if i < |rows| {
        assert (rows + [row])[i] == rows[i];
      }
    }
  }

  /** On a form staged in this batch, inserting a field keeps every page's staged
      fields numbered 1, 2, 3, ... in staging order. */
  lemma {:induction false} StagedFormPositionsConsecutive(intent: I.FieldIntent, store: Snapshot, st: State, formId: string, pageId: Value)
    requires IsPlaceholder(formId)
    requires InsertField(intent, store, st, formId).Ok?
    requires Numbered(StagedOnPage(st.cs, pageId))
    ensures Numbered(StagedOnPage(InsertField(intent, store, st, formId).value.cs, pageId))
  {
    var r := InsertField(intent, store, st, formId).value;
    var at := PlaceField(store, st.cs, formId).value;
    var code := NewCode(intent, st.next);
    var typeId := FieldTypeByKey(store, intent.fieldType.value).value.id;
    var row := InsertRow(intent, formId, typeId, at, Placeholder("fld", code.1), code.0);
    AppendKeepsNumbered(st.cs, r.cs, row, pageId, at);
  }

  /** Appending a field placed after the page's staged fields keeps them numbered. */
  lemma AppendKeepsNumbered(before: ChangeSet, after: ChangeSet, row: Row, pageId: Value, at: Placement)
    requires RowsOf(after, FormFields, Insert) == RowsOf(before, FormFields, Insert) + [row]
    requires Get(row, "page_id", Null) == at.pageId && Get(row, "position", Null) == Int(at.position)
    requires at.position == |StagedOnPage(before, at.pageId)| + 1
    requires Numbered(StagedOnPage(before, pageId))
    ensures Numbered(StagedOnPage(after, pageId))
  {
    StagedOnPageAppend(before, after, row, pageId);
    if OnPage(row, pageId) {
      NumberedAppend(StagedOnPage(before, pageId), row);
    }
  }

  /** On a stored form the position comes from the store alone: a second insert
      onto the same form in one plan gets the same page and position as the
      first, whatever was staged before it. */
  lemma StoredFormPositionIgnoresBatch(store: Snapshot, cs1: ChangeSet, cs2: ChangeSet, formId: string)
    requires !IsPlaceholder(formId)
    requires PlaceField(store, cs1, formId).Ok?
    ensures PlaceField(store, cs2, formId) == PlaceField(store, cs1, formId)
    ensures exists page :: IsLastPage(store, formId, page)
                           && PlaceField(store, cs2, formId).value.pageId == Str(page.id)
                           && NextPosition(store, formId, page.id, PlaceField(store, cs2, formId).value.position)
  {
  }
}

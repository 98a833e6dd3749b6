/** The shared part of the change-set builder: its state (the change-set being
    assembled and the fresh-name supply), its errors, the staging of new forms,
    and the resolution of form and field references against the store and
    against rows already staged in the batch. */
module Resolution {
  import opened Wrappers
  import opened Values
  import opened Text
  import opened Seqs
  import opened Sorting
  import opened Store
  import opened ChangeSets
  import I = IntentSchema

  /** Everything the builder can raise. `FormNotFound`, `FormAmbiguous`,
      `FieldAmbiguous` and `FieldNotFound` are the clarification requests
      (`ResolutionClarificationNeeded` with its reason and candidates); the
      others, `MissingFormReference` included, are plain `ValueError`s. */
  datatype BuildError =
    | MissingFormReference
    | FormNotFound(query: string, formCandidates: seq<Form>)
    | FormAmbiguous(query: string, formCandidates: seq<Form>)
    | FieldAmbiguous(query: string, fieldCandidates: seq<Field>)
    | FieldNotFound(wanted: string, fieldCandidates: seq<Field>)
    | FieldTypeRequired
    | UnknownFieldType(key: string)
    | NewFormHasNoPages(formId: string)
    | FormHasNoPages(formId: string)
    | FieldUpdateUnresolved
    | FieldDeleteUnresolved
    | RowLimitExceeded(total: nat, limit: int)

  /** The change-set under construction and the next draw of the fresh-name supply
      (the model of `uuid4`). */
  datatype State = State(cs: ChangeSet, next: nat)

  /** Form key (name or code) to the placeholder of the form staged for it. */
  type NewFormIds = map<string, string>

  /** A resolved field: a stored field or a staged insert row. */
  datatype FieldRef = FieldRef(id: string, labelText: string)

  // ---------------------------------------------------------------------------
  // Form references

  /** `form_id or form_name or form_code`. */
  function FormKey(t: I.TargetForm): Option<string> {
    OrElse(OrElse(t.formId, t.formName), t.formCode)
  }

  /** The name or code a form is looked up by: `form_name or form_code`. */
  function NameOrCode(t: I.TargetForm): Option<string> {
    OrElse(t.formName, t.formCode)
  }

  // ---------------------------------------------------------------------------
  // Form resolution

  function ResolveFormId(store: Snapshot, t: I.TargetForm, nf: NewFormIds): (r: Result<string, BuildError>)
    ensures Present(t.formId) ==> r == Ok(t.formId.value)
    ensures !Present(t.formId) && !Present(NameOrCode(t)) ==> r == Err(MissingFormReference)
    ensures !Present(t.formId) && Present(NameOrCode(t)) ==>
      var q := NameOrCode(t).value;
      var matches := FindFormsByName(store, q);
      && (q in nf ==> r == Ok(nf[q]))
      && (q !in nf && |matches| == 0 ==>
            r.Err? && r.error.FormNotFound? && r.error.query == q
            && multiset(r.error.formCandidates) == multiset(store.forms))
      && (q !in nf && |matches| > 1 ==>
            r.Err? && r.error.FormAmbiguous? && r.error.query == q && |r.error.formCandidates| > 1
            && forall f :: f in r.error.formCandidates <==> f in store.forms && FormMatches(f, q))
      && (q !in nf && |matches| == 1 ==>
            exists f :: (f in store.forms && FormMatches(f, q) && r == Ok(f.id)
                         && forall g :: g in store.forms && FormMatches(g, q) ==> g == f))
  {
    if Present(t.formId) then Ok(t.formId.value)
    else
      var nc := NameOrCode(t);
      if !Present(nc) then Err(MissingFormReference)
      else if nc.value in nf then Ok(nf[nc.value])
      else
        var matches := FindFormsByName(store, nc.value);
        if |matches| == 0 then Err(FormNotFound(nc.value, FormsByTitle(store)))
        else if |matches| > 1 then Err(FormAmbiguous(nc.value, matches))
        else
          assert matches[0] in matches;
          assert forall g :: g in matches ==> g == matches[0];
          Ok(matches[0].id)
  }

  // ---------------------------------------------------------------------------
  // Field resolution

  predicate OnForm(row: Row, formId: string) {
    Get(row, "form_id", Null) == Str(formId)
  }

  function RowRef(row: Row): FieldRef {
    FieldRef(TextAt(row, "id"), TextAt(row, "label"))
  }

  function StoredRef(f: Field): FieldRef {
    FieldRef(f.id, f.labelText)
  }

  /** Staged field inserts of the form whose `column` is exactly `text`. */
  function StagedWithColumn(cs: ChangeSet, formId: string, column: string, text: string): (r: seq<Row>)
    ensures forall row :: row in r <==>
      row in RowsOf(cs, FormFields, Insert) && OnForm(row, formId) && Get(row, column, Null) == Str(text)
  {
    Filter(RowsOf(cs, FormFields, Insert), (row: Row) => OnForm(row, formId) && Get(row, column, Null) == Str(text))
  }

  /** Staged field inserts of the form whose code contains `code`. */
  function StagedLikeCode(cs: ChangeSet, formId: string, code: string): (r: seq<Row>)
    ensures forall row :: row in r <==>
      row in RowsOf(cs, FormFields, Insert) && OnForm(row, formId) && Contains(TextAt(row, "code"), code)
  {
    Filter(RowsOf(cs, FormFields, Insert), (row: Row) => OnForm(row, formId) && Contains(TextAt(row, "code"), code))
  }

  /** Lookup of a field on a form staged in this batch: only staged inserts are
      searched, by exact code, then by a unique code substring, then by exact label. */
  function ResolveStagedField(cs: ChangeSet, formId: string, code: Option<string>, fieldLabel: Option<string>): (r: Option<FieldRef>)
    ensures r.Some? ==> exists row :: row in RowsOf(cs, FormFields, Insert) && OnForm(row, formId) && r.value == RowRef(row)
    ensures Present(code) && |StagedWithColumn(cs, formId, "code", code.value)| > 0 ==>
      r == Some(RowRef(StagedWithColumn(cs, formId, "code", code.value)[0]))
    ensures Present(code) && |StagedWithColumn(cs, formId, "code", code.value)| == 0 && |StagedLikeCode(cs, formId, code.value)| == 1 ==>
      r == Some(RowRef(StagedLikeCode(cs, formId, code.value)[0]))
    ensures (!Present(code) || (|StagedWithColumn(cs, formId, "code", code.value)| == 0 && |StagedLikeCode(cs, formId, code.value)| != 1)) ==>
      r == (if Present(fieldLabel) && |StagedWithColumn(cs, formId, "label", fieldLabel.value)| > 0
            then Some(RowRef(StagedWithColumn(cs, formId, "label", fieldLabel.value)[0])) else None)
  {
    var byCode :=
      if !Present(code) then None
      else
        var exact := StagedWithColumn(cs, formId, "code", code.value);
        if |exact| > 0 then Some(exact[0])
        else
          var fuzzy := StagedLikeCode(cs, formId, code.value);
          if |fuzzy| == 1 then Some(fuzzy[0]) else None;
    if byCode.Some? then
      assert byCode.value in RowsOf(cs, FormFields, Insert) && OnForm(byCode.value, formId);
      Some(RowRef(byCode.value))
    else if Present(fieldLabel) then
      var exact := StagedWithColumn(cs, formId, "label", fieldLabel.value);
      if |exact| > 0 then
        assert exact[0] in exact;
        Some(RowRef(exact[0]))
      else None
    else None
  }

  /** The field code, if given, matches no field of the stored form, exactly or under `LIKE`. */
  predicate NoStoredCodeMatch(store: Snapshot, formId: string, code: Option<string>) {
    !Present(code) || (|FieldsWithCode(store, formId, code.value)| == 0 && |FieldsLikeCode(store, formId, code.value)| == 0)
  }

  /** Lookup of a field on a stored form: exact code, then a unique code match
      under `LIKE`, then a unique label-or-code match under `LIKE`; several
      matches at either `LIKE` step is an ambiguity carrying the matches. */
  function ResolveStoredField(store: Snapshot, formId: string, code: Option<string>, fieldLabel: Option<string>): (r: Result<Option<FieldRef>, BuildError>)
    ensures r.Ok? && r.value.Some? ==>
      exists f :: f in store.fields && f.formId == formId && r.value.value == StoredRef(f)
    ensures r.Err? ==>
      r.error.FieldAmbiguous? && |r.error.fieldCandidates| > 1
      && forall f :: f in r.error.fieldCandidates ==> f in store.fields && f.formId == formId
    ensures Present(code) && |FieldsWithCode(store, formId, code.value)| > 0 ==>
      exists f :: f in store.fields && f.formId == formId && f.code == code.value && r == Ok(Some(StoredRef(f)))
    ensures Present(code) && |FieldsWithCode(store, formId, code.value)| == 0 && |FieldsLikeCode(store, formId, code.value)| > 1 ==>
      r == Err(FieldAmbiguous(code.value, FieldsLikeCode(store, formId, code.value)))
    ensures Present(code) && |FieldsWithCode(store, formId, code.value)| == 0 && |FieldsLikeCode(store, formId, code.value)| == 1 ==>
      r == Ok(Some(StoredRef(FieldsLikeCode(store, formId, code.value)[0])))
    ensures NoStoredCodeMatch(store, formId, code) && Present(fieldLabel)
            && |FindFieldsByLabel(store, formId, fieldLabel.value)| == 1 ==>
      r == Ok(Some(StoredRef(FindFieldsByLabel(store, formId, fieldLabel.value)[0])))
    ensures NoStoredCodeMatch(store, formId, code) && Present(fieldLabel)
            && |FindFieldsByLabel(store, formId, fieldLabel.value)| > 1 ==>
      r == Err(FieldAmbiguous(fieldLabel.value, FindFieldsByLabel(store, formId, fieldLabel.value)))
    ensures NoStoredCodeMatch(store, formId, code)
            && (!Present(fieldLabel) || |FindFieldsByLabel(store, formId, fieldLabel.value)| == 0) ==>
      r == Ok(None)
  {
    var byCode: Result<Option<FieldRef>, BuildError> :=
      if !Present(code) then Ok(None)
      else
        var exact := FieldsWithCode(store, formId, code.value);
        if |exact| > 0 then
          assert exact[0] in exact;
          Ok(Some(StoredRef(exact[0])))
        else
          var fuzzy := FieldsLikeCode(store, formId, code.value);
          if |fuzzy| == 1 then
            assert fuzzy[0] in fuzzy;
            Ok(Some(StoredRef(fuzzy[0])))
          else if |fuzzy| > 1 then Err(FieldAmbiguous(code.value, fuzzy))
          else Ok(None);
    if byCode.Err? || byCode.value.Some? then byCode
    else if Present(fieldLabel) then
      var candidates := FindFieldsByLabel(store, formId, fieldLabel.value);
      if |candidates| == 1 then
        assert candidates[0] in candidates;
        Ok(Some(StoredRef(candidates[0])))
      else if |candidates| > 1 then Err(FieldAmbiguous(fieldLabel.value, candidates))
      else Ok(None)
    else Ok(None)
  }

  /** `_resolve_field`: staged inserts when the form is a placeholder and the batch
      is non-empty, the store otherwise. */
  function ResolveField(store: Snapshot, cs: ChangeSet, formId: string, code: Option<string>, fieldLabel: Option<string>): (r: Result<Option<FieldRef>, BuildError>)
    ensures IsPlaceholder(formId) && |cs| > 0 ==> r == Ok(ResolveStagedField(cs, formId, code, fieldLabel))
    ensures !(IsPlaceholder(formId) && |cs| > 0) ==> r == ResolveStoredField(store, formId, code, fieldLabel)
  {
    if IsPlaceholder(formId) && |cs| > 0 then Ok(ResolveStagedField(cs, formId, code, fieldLabel))
    else ResolveStoredField(store, formId, code, fieldLabel)
  }
}

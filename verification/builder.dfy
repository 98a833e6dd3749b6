/** `build_change_set`: new forms first, then the field, option and logic
    intents in that order, all against one change-set and one fresh-name
    supply; the batch is refused when it changes more rows than the budget. */
module Builder {
  import opened Wrappers
  import opened Values
  import opened Store
  import opened ChangeSets
  import opened Resolution
  import opened NewForms
  import opened FieldIntents
  import opened OptionIntents
  import opened LogicIntents
  import I = IntentSchema

  /** An empty change-set and a fresh supply. */
  const Start: State := State([], 0)

  /** The form keys of the plan that get a new form, in order. */
  function PlanNewKeys(plan: I.IntentPlan, store: Snapshot): seq<(string, I.TargetForm)> {
    NewKeys(UniqueForms(Targets(plan)), store)
  }

  /** Everything the builder stages before counting rows. */
  function Stage(plan: I.IntentPlan, store: Snapshot): (r: Result<State, BuildError>)
    ensures r.Ok? ==> UniqueTables(r.value.cs)
  {
    var created := CreateNewForms(plan, store, Start);
    var st1 :- ApplyFieldIntents(plan.fields, store, created.0, created.1);
    var st2 :- ApplyOptionIntents(plan.options, store, st1, created.1);
    ApplyLogicIntents(plan.logicBlocks, store, st2, created.1)
  }

  /** A plan without intents creates no form, stages nothing and leaves the
      fresh-name supply untouched; its change-set is empty whenever the row
      budget is not negative. */
  lemma NoIntentsStageNothing(plan: I.IntentPlan, store: Snapshot, maxRows: int)
    requires plan.fields == [] && plan.options == [] && plan.logicBlocks == []
    ensures Stage(plan, store) == Ok(Start)
    ensures maxRows >= 0 ==> BuildChangeSet(plan, store, maxRows) == Ok([])
  {
  }

  /** `build_change_set`: the staged change-set, unless a handler raised or the
      rows it changes exceed `maxRows` (`settings.max_changed_rows`). */
  function BuildChangeSet(plan: I.IntentPlan, store: Snapshot, maxRows: int): (r: Result<ChangeSet, BuildError>)
    ensures Stage(plan, store).Err? ==> r == Err(Stage(plan, store).error)
    ensures r.Ok? ==> Stage(plan, store) == Ok(State(r.value, Stage(plan, store).value.next))
    ensures r.Ok? ==> TotalRows(r.value) <= maxRows && UniqueTables(r.value)
    ensures r.Err? && r.error.RowLimitExceeded? && Stage(plan, store).Ok? ==>
      r.error.total == TotalRows(Stage(plan, store).value.cs) && r.error.total > maxRows && r.error.limit == maxRows
  {
    var st :- Stage(plan, store);
    var total := TotalRows(st.cs);
    if total > maxRows then Err(RowLimitExceeded(total, maxRows)) else Ok(st.cs)
  }

  /** The row budget: a plan whose handlers all succeed is refused exactly when
      its change-set has more rows than the limit, and accepted otherwise. */
  lemma RowBudget(plan: I.IntentPlan, store: Snapshot, maxRows: int)
    requires Stage(plan, store).Ok?
    ensures BuildChangeSet(plan, store, maxRows).Ok? <==> TotalRows(Stage(plan, store).value.cs) <= maxRows
    ensures BuildChangeSet(plan, store, maxRows).Err? ==>
      BuildChangeSet(plan, store, maxRows).error == RowLimitExceeded(TotalRows(Stage(plan, store).value.cs), maxRows)
  {
  }

  /** The inserts into `forms` and `form_pages` of a change-set. */
  predicate SameNewForms(a: ChangeSet, b: ChangeSet) {
    RowsOf(a, Forms, Insert) == RowsOf(b, Forms, Insert) && RowsOf(a, FormPages, Insert) == RowsOf(b, FormPages, Insert)
  }

  lemma FieldIntentsKeepNewForms(intents: seq<I.FieldIntent>, store: Snapshot, st: State, nf: NewFormIds)
    requires ApplyFieldIntents(intents, store, st, nf).Ok?
    ensures SameNewForms(ApplyFieldIntents(intents, store, st, nf).value.cs, st.cs)
  {
  }

  lemma OptionIntentsKeepNewForms(intents: seq<I.OptionIntent>, store: Snapshot, st: State, nf: NewFormIds)
    requires ApplyOptionIntents(intents, store, st, nf).Ok?
    ensures SameNewForms(ApplyOptionIntents(intents, store, st, nf).value.cs, st.cs)
  {
    assert Forms !in OptionTables && FormPages !in OptionTables;
  }

  lemma LogicIntentsKeepNewForms(intents: seq<I.LogicIntent>, store: Snapshot, st: State, nf: NewFormIds)
    requires ApplyLogicIntents(intents, store, st, nf).Ok?
    ensures SameNewForms(ApplyLogicIntents(intents, store, st, nf).value.cs, st.cs)
  {
    assert Forms !in LogicTables && FormPages !in LogicTables;
  }

  /** The field, option and logic handlers never touch the `forms` and
      `form_pages` inserts staged for new forms. */
  lemma StageKeepsNewForms(plan: I.IntentPlan, store: Snapshot)
    requires Stage(plan, store).Ok?
    ensures SameNewForms(Stage(plan, store).value.cs, CreateNewForms(plan, store, Start).0.cs)
  {
    var created := CreateNewForms(plan, store, Start);
    var r1 := ApplyFieldIntents(plan.fields, store, created.0, created.1);
    FieldIntentsKeepNewForms(plan.fields, store, created.0, created.1);
    var r2 := ApplyOptionIntents(plan.options, store, r1.value, created.1);
    OptionIntentsKeepNewForms(plan.options, store, r1.value, created.1);
    LogicIntentsKeepNewForms(plan.logicBlocks, store, r2.value, created.1);
  }

  /** Each key that needs a new form gets exactly one draft `forms` insert and
      exactly one `form_pages` insert pointing at it, and the key resolves to
      that form's placeholder for every later intent. */
  lemma NewFormStagedOnce(plan: I.IntentPlan, store: Snapshot, i: nat)
    requires Stage(plan, store).Ok?
    requires i < |PlanNewKeys(plan, store)|
    ensures var news := PlanNewKeys(plan, store);
            var id := Placeholder("form", 2 * i);
            var forms := RowsOf(Stage(plan, store).value.cs, Forms, Insert);
            var pages := RowsOf(Stage(plan, store).value.cs, FormPages, Insert);
            && |forms| == |news| && |pages| == |news|
            && news[i].0 in CreateNewForms(plan, store, Start).1
            && CreateNewForms(plan, store, Start).1[news[i].0] == id
            && Get(forms[i], "id", Null) == Str(id) && Get(forms[i], "status", Null) == Str("draft")
            && (forall j :: 0 <= j < |forms| && Get(forms[j], "id", Null) == Str(id) ==> j == i)
            && Get(pages[i], "form_id", Null) == Str(id)
            && (forall j :: 0 <= j < |pages| && Get(pages[j], "form_id", Null) == Str(id) ==> j == i)
  {
    var unique := UniqueForms(Targets(plan));
    var news := PlanNewKeys(plan, store);
    CreateFormsStaged(unique, store, Start, map[]);
    CreatedIds(unique, store, Start, map[]);
    StageKeepsNewForms(plan, store);
    var created := CreateNewForms(plan, store, Start).0.cs;
    var forms := RowsOf(created, Forms, Insert);
    var pages := RowsOf(created, FormPages, Insert);
    assert forms[0..] == forms && pages[0..] == pages;
    assert FormsStaged(forms, pages, news, 0);
    var id := Placeholder("form", 2 * i);
    assert StagedPair(forms[i], pages[i], news[i].1, 2 * i);
    forall j | 0 <= j < |forms| && Get(forms[j], "id", Null) == Str(id) ensures j == i {
      assert StagedPair(forms[j], pages[j], news[j].1, 2 * j);
      PlaceholderInjective("form", 2 * j, 2 * i);
    }
    forall j | 0 <= j < |pages| && Get(pages[j], "form_id", Null) == Str(id) ensures j == i {
      assert StagedPair(forms[j], pages[j], news[j].1, 2 * j);
      PlaceholderInjective("form", 2 * j, 2 * i);
    }
  }

  /** A form key that has a `form_id` or matches a stored form stages nothing:
      it gets no placeholder, and every staged form belongs to a key that needed one. */
  lemma KnownFormStagesNothing(plan: I.IntentPlan, store: Snapshot, j: nat)
    requires j < |UniqueForms(Targets(plan))|
    requires !NeedsNewForm(store, UniqueForms(Targets(plan))[j].1)
    ensures UniqueForms(Targets(plan))[j].0 !in CreateNewForms(plan, store, Start).1
  {
    var unique := UniqueForms(Targets(plan));
    CreatedIds(unique, store, Start, map[]);
  }
}

# Change-set compiler and validators, modelled in Dafny

The backend of the form-workflow assistant turns an intent plan into a
*change-set*. An intent plan lists the fields, options and logic rules a user
asked for, each aimed at a form by id, name or code. A change-set maps each
table name to three row lists: `insert`, `update` and `delete`. Two
validators then check the change-set:

- The structure validator checks that every `$` placeholder a row refers to is
  created in the same batch.
- The semantic validator checks two things against the database schema.
  Every insert must supply the required columns. Every update and delete must
  carry an `id`. That id must be a `$` placeholder, a record that exists, or an
  id inserted into the same table in the same batch.

Around this core sit four smaller pure pieces:

- the plan linter, which flags generic or missing details in a plan and picks
  the clarifying question;
- the required-column filter of the schema cache;
- the input sanitiser that cleans user text before it reaches the model;
- two pieces of the agent's request flow: the plan-repair fallback, and the
  collection of the stored forms a change-set touches.

The model is functional. The database is an immutable `Store.Snapshot`
value, and the schema is a `SchemaState` value. The builder threads a
`State`, which holds the change-set and a counter. Every step returns
`Result<State, BuildError>`, and each `BuildError` case stands for one exception
the builder raises. Placeholders come from the counter, so
`Placeholder(kind, n)` is `"$" + kind + "_"` followed by `n` in lower-case
hex, zero-padded to at least 8 digits.

Modules, in dependency order:

- `Wrappers`, `Text`, `PyRepr`, `Values`, `Seqs`, `Sorting`: options, results,
  outcomes, string helpers, Python's `repr` of a string, row values, sequence
  helpers, and a stable insertion sort used for the store's `ORDER BY`.
- `IntentSchema`: the intent datatypes with their defaults.
- `Store`: the database snapshot and its lookups, including SQL `LIKE`.
- `ChangeSets`: tables, sections, change-sets and placeholders.
- `Resolution`: form and field resolution.
- `NewForms`, `FieldIntents`, `OptionIntents`, `LogicIntents`, `Builder`: the
  stages of `build_change_set`.
- `StructureValidator`, `SchemaCache`, `SemanticValidator`: the validators.
- `PlanValidator`, `PromptInjection`, `Agent`.

## Model

| member | source | states |
|---|---|---|
| ChangeSets.Placeholder | backend/app/resolver.py:29-30 | A minted id starts with `$`, then the kind, then `_`. |
| ChangeSets.PlaceholderInjective | backend/app/resolver.py:29-30 | Two draws of the same kind with different counter values give different ids, so minted ids never collide. |
| ChangeSets.KeysIdentifyTables | backend/app/resolver.py:33-36 | Two canonical tables are equal exactly when their keys are equal. |
| ChangeSets.BuilderTablesCanonical | backend/app/resolver.py:33-36 | The nine builder tables are canonical, and so is the table any key is read as. |
| ChangeSets.UniqueKeys | backend/app/resolver.py:33-36 | A change-set of distinct canonical tables has distinct keys, like the dict it stands for. |
| ChangeSets.EnsureTableSection | backend/app/resolver.py:33-36 | An existing section is left as is. A missing table gains an empty section. No rows change and table names stay unique. |
| ChangeSets.Push | backend/app/resolver.py:303 | Appending a row adds it at the end of that table's list for that operation. Every other list is unchanged and the total grows by one. |
| Builder.Stage | backend/app/resolver.py:39-48 | The four stages run in order: new forms, fields, options, logic. A successful run yields a change-set whose table names are unique. |
| Builder.BuildChangeSet | backend/app/resolver.py:39-57 | A stage error is passed through. A result is the staged change-set and has at most `maxRows` rows. A row-limit error reports the staged total, which exceeds the limit. |
| Builder.NoIntentsStageNothing | backend/app/resolver.py:39-57 | A plan without intents creates no form, stages nothing and takes no draw. With a non-negative limit its change-set is empty. |
| Builder.RowBudget | backend/app/resolver.py:50-55 | Once staging succeeds, the build succeeds exactly when the staged total is at most the limit. Otherwise it fails with that total and the limit. |
| Builder.StageKeepsNewForms | backend/app/resolver.py:45-48 | The field, option and logic stages leave the `forms` and `form_pages` inserts staged by the new-form stage unchanged. |
| Builder.NewFormStagedOnce | backend/app/resolver.py:74-108 | Take the i-th form key that needs a new form. It gets the placeholder `$form` id of draw 2i, and that id is recorded for the key. Exactly one `forms` insert, with status `draft`, carries that id. Exactly one `form_pages` insert points to it. |
| Builder.KnownFormStagesNothing | backend/app/resolver.py:74-84 | A key with a `form_id`, with no name or code, or matching a stored form gets no new-form id. |
| NewForms.UniqueForms | backend/app/resolver.py:63-72 | The keys have no repeats, each is its target's non-empty `form_id`/name/code, and every such key of the plan's intents is listed. |
| NewForms.NewKeys | backend/app/resolver.py:74-84 | The keys kept for creation are exactly the listed keys with no `form_id`, with a name or code, and with no store match. |
| NewForms.NewFormRow | backend/app/resolver.py:86-97 | The staged form row has exactly the columns id, slug, title, description and status. Its status is `draft`, and its title is the name when a name is given. |
| NewForms.NewPageRow | backend/app/resolver.py:99-106 | The staged page row has exactly the columns id, form_id, page_number and title. It points to its form and is page 1. |
| NewForms.CreateForm | backend/app/resolver.py:74-108 | A key that needs a form appends one form row and one page row and takes two draws. It records the form's id under the key. Any other key changes nothing. |
| NewForms.CreateForms | backend/app/resolver.py:60-108 | Creation touches only the `forms` and `form_pages` inserts. It takes two draws per created form. |
| NewForms.CreateFormsStaged | backend/app/resolver.py:74-108 | The appended form and page rows are, pair by pair, the rows for the created keys in order, numbered from the starting draw. |
| NewForms.CreatedIds | backend/app/resolver.py:108 | After creation, the id map holds the earlier entries and each created key. The k-th created key maps to the form placeholder of draw `next + 2k`. |
| Resolution.ResolveFormId | backend/app/resolver.py:111-162 | An explicit `form_id` is returned unchanged. A name or code created in this batch wins over the store. No store match gives `form_not_found`, with every stored form as a candidate. Several matches give `form_ambiguous`, with exactly the matches as candidates. One match returns its id. With no reference at all, it errors. |
| Resolution.ResolveStagedField | backend/app/resolver.py:168-193 | On a staged form, the first staged insert with the exact code wins. Next comes the only staged insert whose code contains it. Next comes the first with the exact label. Otherwise there is no field. |
| Resolution.ResolveStoredField | backend/app/resolver.py:195-242 | On a stored form, the lookup tries in order: the first exact code match, the single code `LIKE` match, the single label-or-code `LIKE` match, and otherwise none. Several `LIKE` matches at either step raise `field_ambiguous` with the matches as candidates. |
| Resolution.ResolveField | backend/app/resolver.py:165-242 | The staged lookup is used exactly when the form is a placeholder and the batch is non-empty. Otherwise the store lookup is used. |
| Store.FindFormsByName | backend/app/db.py:87-90 | The forms returned are exactly those whose title or slug contains the query under case-insensitive `LIKE`. |
| Store.LikeIsCaseInsensitiveSubstring | backend/app/db.py:87-100 | For a query without wildcards, `LIKE '%q%'` holds exactly when the ASCII-lower-cased text contains the lower-cased query. |
| Store.FormsByTitle | backend/app/resolver.py:125-127 | All stored forms, ordered by title. |
| Store.FindFieldsByLabel | backend/app/db.py:92-100 | The fields returned are exactly the form's fields whose label or code contains the text under `LIKE`. |
| Store.FieldsWithCode | backend/app/resolver.py:196-199 | The fields returned are exactly the form's fields with exactly that code. |
| Store.FieldsLikeCode | backend/app/resolver.py:203-206 | The fields returned are exactly the form's fields whose code contains the text under `LIKE`. |
| Store.PagesForForm | backend/app/db.py:110-115 | The pages returned are exactly the form's pages, ordered by position. |
| Store.LastPage | backend/app/resolver.py:274-277 | With no page, the result is none. Otherwise it is a page of the form whose position no other page of the form exceeds. |
| Store.MaxPositionOnPage | backend/app/resolver.py:279-284 | The result is none exactly when the page has no stored field. Otherwise it is the highest field position on the page. |
| Store.FieldTypeByKey | backend/app/db.py:117-119 | A field type is returned exactly when one has that key, and it is that type. |
| Store.OptionSetForField | backend/app/db.py:121-127 | A set is returned only if it is bound to the field. None is returned only when no stored set is bound to it. |
| Store.FieldsOfForm | backend/app/resolver.py:350-353 | The fields returned are, as a multiset, exactly the form's stored fields, ordered by position. |
| Store.OptionItemsForField | backend/app/db.py:102-108 | The items returned are, as a multiset, exactly the items of the option sets bound to the field, ordered by position. |
| Store.ItemsInPositionOrder | backend/app/db.py:102-108 | Of two returned items, the earlier one has a position no higher than the later one. |
| FieldIntents.PlaceOnStagedForm | backend/app/resolver.py:260-272 | A staged form with no staged page is an error. Otherwise a field goes on its first staged page, at one past the number of fields already staged on that page. |
| FieldIntents.PlaceOnStoredForm | backend/app/resolver.py:273-284 | A stored form with no page is an error. Otherwise a field goes on its last page, one past the highest stored position there, or at 1 on an empty page. |
| FieldIntents.StagedFormPositionsConsecutive | backend/app/resolver.py:260-272 | Inserting on a staged form keeps each page's staged fields numbered 1, 2, 3, … in order. |
| FieldIntents.StoredFormPositionIgnoresBatch | backend/app/resolver.py:273-284 | On a stored form, placement depends only on the store and not on the fields already staged. |
| FieldIntents.NewCode | backend/app/resolver.py:285 | The code is the given code, else the label, else a fresh `field_…` code that takes a draw. |
| FieldIntents.Flag | backend/app/resolver.py:296-297 | A property flag becomes 1 when the value is truthy and 0 otherwise. |
| FieldIntents.InsertRow | backend/app/resolver.py:287-302 | The inserted field row carries its placeholder id, the form, the chosen page and the computed position. |
| FieldIntents.UpdateRow | backend/app/resolver.py:305-318 | The update row holds the id, and the label only when one is given. It holds `required`, `read_only` and `placeholder` only when the properties hold them, with the flags reduced to 0 or 1. It holds no other column. |
| FieldIntents.InsertField | backend/app/resolver.py:253-303 | Insert fails without a field type and with an unknown type, and fails exactly when placement fails. Otherwise it appends one row built from the type, placement and code, and changes nothing else. |
| FieldIntents.ApplyFieldIntent | backend/app/resolver.py:245-323 | Form and field resolution errors pass through. Insert ignores any existing field. Update and delete of an unresolved field are errors. A resolved update appends its update row, and a resolved delete appends `{id}`. Exactly one row is added and only `form_fields` changes. |
| FieldIntents.ApplyFieldIntents | backend/app/resolver.py:245-251 | A successful run adds exactly one row per intent and touches no table but `form_fields`. |
| OptionIntents.FindItem | backend/app/resolver.py:392-393 | The lookup is by value first, then by label, keeping the last item with that value or label. It finds nothing exactly when no item has that value or label. |
| OptionIntents.MaxItemPosition | backend/app/resolver.py:396 | The result is the highest existing item position, or 0 when there are no items. |
| OptionIntents.NewOptionSet | backend/app/resolver.py:374-388 | A new placeholder option set and the binding of the field to it are appended. Exactly two rows are added. |
| OptionIntents.StageOptionSet | backend/app/resolver.py:369-389 | A field that already has an option set reuses it and adds no rows. Otherwise a set and its binding are created. Either way all three option tables exist afterwards. |
| OptionIntents.Fresh | backend/app/resolver.py:397-399 | The values kept are exactly those that no existing item has as its value. |
| OptionIntents.AddItems | backend/app/resolver.py:395-410 | One item is appended per fresh value, in order. Each has a placeholder id, the set's id, value equal to label, `is_active` 1, and consecutive positions after the starting one. |
| OptionIntents.AddedItemsAreNew | backend/app/resolver.py:395-410 | The k-th added item belongs to the field's option set. Its value is the k-th fresh value, which no existing item has. Its position is the highest existing position plus k+1, so it is above every existing item's position. |
| OptionIntents.RepeatedAddValueStagedTwice | backend/app/resolver.py:397-399 | A value listed twice in `add_values` is staged twice, because deduplication only looks at the stored items. |
| OptionIntents.RenameItems | backend/app/resolver.py:412-423 | Each rename whose old text matches an item appends one update that sets both value and label to the new text. Nothing else is added. |
| OptionIntents.UnmatchedRenamesAreNoop | backend/app/resolver.py:414-416 | Renames that match no item by value or label leave the change-set unchanged. |
| OptionIntents.RemoveItems | backend/app/resolver.py:425-435 | Each removed value that matches an item appends one update setting `is_active` to 0. |
| OptionIntents.UnmatchedRemovalsAreNoop | backend/app/resolver.py:427-429 | Removals that match no item leave the change-set unchanged. |
| OptionIntents.AdjustItems | backend/app/resolver.py:412-435 | The updates appended are the renames of the matched items, in rename order, followed by the deactivations of the matched removals. Each targets the id of the item it matched. |
| OptionIntents.EditItems | backend/app/resolver.py:395-435 | On insert, the item inserts appended are exactly the fresh values, numbered after the highest existing position. The updates appended are the matched renames and then the matched removals. |
| OptionIntents.EditFieldOptions | backend/app/resolver.py:369-435 | The rows added are: 2 when a set is created, plus the fresh adds on insert, plus the matched renames and removals. The inserted items belong to the reused or created set and follow the field's stored items. Renames and deactivations target the matched stored ids. No table outside the option tables changes. |
| OptionIntents.OptionEditsNeverDelete | backend/app/resolver.py:395-435 | Option edits never stage a delete of an item. Only an insert intent adds items. |
| OptionIntents.ApplyOptionIntent | backend/app/resolver.py:326-368 | Resolution errors pass through. An unresolved field is `field_not_found`, carrying the wanted name and the form's fields. A resolved field gets the option edits. |
| OptionIntents.ApplyOptionIntents | backend/app/resolver.py:326-330 | A successful run touches only the option tables, and never shrinks the change-set. |
| LogicIntents.RuleRow | backend/app/resolver.py:449-457 | The rule row has exactly the columns id, form_id, name, trigger, scope, priority and enabled. Trigger, scope and priority come from the payload, with defaults `on_change`, `form` and 100. The rule is enabled. |
| LogicIntents.RuleDefaults | backend/app/resolver.py:453-456 | A payload without trigger, scope or priority gets `on_change`, `form` and 100. A given priority is copied verbatim. |
| LogicIntents.ConditionRow | backend/app/resolver.py:461-471 | A condition row copies lhs_ref, rhs and position. Operator defaults to `=` and bool_join to `AND`. group_id is null. |
| LogicIntents.ActionRow | backend/app/resolver.py:475-483 | An action row copies action, target_ref, params and position. |
| LogicIntents.InsertRule | backend/app/resolver.py:447-484 | A logic insert appends one rule, one row per condition and one row per action, all keyed to the rule's placeholder. It changes no other list. |
| LogicIntents.ConditionsThreaded | backend/app/resolver.py:460-472 | The k-th condition row carries the rule's id and the k-th `$cond` draw, and copies its condition's fields. |
| LogicIntents.ActionsThreaded | backend/app/resolver.py:474-484 | The k-th action row carries the rule's id and its own `$act` draw, and copies its action's fields. |
| LogicIntents.ConditionsLinked | backend/app/resolver.py:460-472 | Every condition row a rule insert adds points to that rule's placeholder and has a placeholder id. |
| LogicIntents.ActionsLinked | backend/app/resolver.py:474-484 | Every action row a rule insert adds points to that rule's placeholder and has a placeholder id. |
| LogicIntents.ConditionIdsDistinct | backend/app/resolver.py:463 | The conditions of one rule get pairwise different ids. |
| LogicIntents.StageLogic | backend/app/resolver.py:443-484 | The three logic tables always exist afterwards. Insert stages a rule. Update and delete add no rows. |
| LogicIntents.ApplyLogicIntent | backend/app/resolver.py:441-442 | A form resolution error passes through. Otherwise the intent is staged on the resolved form. |
| StructureValidator.CreatedPlaceholders | backend/app/change_set_validator.py:47-51 | Created ids are exactly the `$` string ids of insert rows, in any table. |
| StructureValidator.IdsOfTable | backend/app/change_set_validator.py:47-67 | A table's id set is exactly the string ids of its rows, whatever the operation. |
| StructureValidator.ColumnErrors | backend/app/change_set_validator.py:82-130 | Errors are reported exactly for the reference columns that dangle. A column dangles when it is a `$` string found neither among created ids nor in its table's id set. |
| StructureValidator.ColumnErrorsDistinct | backend/app/change_set_validator.py:82-130 | No two errors of one row name the same column. |
| StructureValidator.RowErrors | backend/app/change_set_validator.py:82-130 | A row's errors are exactly one per dangling column of form, page, field, option set and rule. Non-string and non-`$` values never count. The row is error-free exactly when nothing dangles. |
| StructureValidator.RowsErrors | backend/app/change_set_validator.py:78-130 | A list's errors are exactly those of its rows, each tagged with the table and operation. |
| StructureValidator.EntriesErrorsEmpty | backend/app/change_set_validator.py:70-130 | No error is collected exactly when every table's rows are sound. |
| StructureValidator.ValidateStructure | backend/app/change_set_validator.py:12-134 | The check passes exactly when every table's rows are sound. Otherwise it raises with every collected error. |
| SchemaCache.RequiredFrom | backend/app/schema_cache.py:28-35 | A column is required exactly when it is not the primary key, is NOT NULL and has no default. The result keeps the columns' order. |
| SchemaCache.RequiredColumnsForTable | backend/app/schema_cache.py:28-35 | The loop returns the required columns as an order-preserving subsequence of the column names. |
| SemanticValidator.RequiredColumnsAgree | backend/app/change_set_validator.py:186-190 | The validator's own required-column filter gives the same list as the schema cache's. |
| SemanticValidator.TableByName | backend/app/change_set_validator.py:148 | The table is found exactly when the schema lists one with that name. |
| SemanticValidator.InsertErrorsSound | backend/app/change_set_validator.py:193-202 | Every insert error names a row of the list and a required column that the row lacks or holds as null. |
| SemanticValidator.InsertErrorsComplete | backend/app/change_set_validator.py:193-202 | Every required column a row lacks or holds as null is reported, with the row's index. |
| SemanticValidator.RecordErrorsSound | backend/app/change_set_validator.py:215-241 | Every update or delete error names a row that lacks an `id`, or whose `id` is neither `$` nor a known record. |
| SemanticValidator.RecordErrorsComplete | backend/app/change_set_validator.py:215-241 | Every row without `id` is reported as missing its id. Every non-`$` id outside the existing and created ids is reported as unknown. |
| SemanticValidator.EntryErrorsEmpty | backend/app/change_set_validator.py:181-241 | A table yields no error exactly when it is valid. A table absent from the schema is always valid. |
| SemanticValidator.ValidateChangeSet | backend/app/change_set_validator.py:137-245 | The check passes exactly when every table is valid. Otherwise it raises with all errors, the insert errors first. |
| PlanValidator.ClarifyingIssues | backend/app/plan_validator.py:18-25 | A plan that asks for clarification gets one issue for each non-empty list among fields, options and logic blocks, and nothing else. |
| PlanValidator.CodeCheck | backend/app/plan_validator.py:31-36 | A generic code is flagged as generic. A non-generic code under 3 characters after normalising is flagged as too short. Never both. |
| PlanValidator.LabelCheck | backend/app/plan_validator.py:38-41 | A generic label is flagged, and only then. |
| PlanValidator.FormNameCheck | backend/app/plan_validator.py:43-46 | A form name without `form_id` that contains a generic form phrase is flagged, and only then. |
| PlanValidator.TypeCheck | backend/app/plan_validator.py:48-49 | An insert without a field type is flagged, and only then. |
| PlanValidator.NameCheck | backend/app/plan_validator.py:51-52 | A field with neither code nor label is flagged, and only then. |
| PlanValidator.FieldIssues | backend/app/plan_validator.py:30-52 | A field's issues are exactly those its checks raise, at most five. A generic code and a too-short code never both appear. |
| PlanValidator.NewFormNames | backend/app/plan_validator.py:54-58 | The names listed are exactly those a new-form field names, each once. |
| PlanValidator.NewFormCheck | backend/app/plan_validator.py:54-62 | Consider the insert fields with no `form_id`. No names and no codes gives the no-name issue. More than one distinct name gives the multiple-names issue, listing the names. |
| PlanValidator.TwoNamesFlagged | backend/app/plan_validator.py:54-62 | Two new-form fields with different names always raise the multiple-names issue. |
| PlanValidator.OptionIssues | backend/app/plan_validator.py:64-72 | An option insert with no add values and no renames gives exactly one issue. Otherwise each generic or one-character add value is flagged. Other operations give nothing. |
| PlanValidator.ConditionsCheck | backend/app/plan_validator.py:82-89 | Empty conditions are flagged, and so is any condition missing `lhs_ref` or `operator`. |
| PlanValidator.ActionsCheck | backend/app/plan_validator.py:91-98 | Empty actions are flagged, and so is any action missing `action` or `target_ref`. |
| PlanValidator.LogicIssues | backend/app/plan_validator.py:74-98 | A logic block's issues are its empty-description issue plus exactly those of its conditions and actions. |
| PlanValidator.DetectIssues | backend/app/plan_validator.py:11-100 | A clarifying plan gets only its clarifying issues. Any other plan gets exactly the field, form, option and logic issues. |
| PlanValidator.DetectAssumptions | backend/app/plan_validator.py:11-100 | The messages are the issues' texts, one per issue, in order. |
| PlanValidator.DetectedFieldIssue | backend/app/plan_validator.py:30-52 | A field issue is detected exactly when some field's checks raise it. |
| PlanValidator.GenericCodeReported | backend/app/plan_validator.py:31-36 | A generic field code is reported as generic and never as too short. |
| PlanValidator.ClarifyingPlanClean | backend/app/plan_validator.py:18-25 | A clarifying plan has no issue exactly when all three lists are empty. |
| PlanValidator.Question | backend/app/plan_validator.py:114-146 | The question follows the branch order: a new-form question listing its missing parts, then the generic-fields question, then the generic-form question, then a list of missing details, then the general fallback. |
| PlanValidator.NoIntentsNoIssues | backend/app/plan_validator.py:11-100 | A plan without intents raises no finding, whether or not it flags itself. |
| PlanValidator.FlaggedOnlyWhenPlanned | backend/app/plan_validator.py:18-25 | A finding other than a non-empty-list finding only arises on a plan that does not flag itself. |
| PlanValidator.GenericCodeAsksForNames | backend/app/plan_validator.py:103-133 | A plan with a generic field code asks. Unless some finding mentions a new form, it asks for specific field names. Otherwise the form-creation question lists the fields it needs. |
| PlanValidator.NoFormNameAsksForName | backend/app/plan_validator.py:103-126 | A new form with neither name nor code makes the form-creation question, whose first item asks for the form's name. |
| PlanValidator.PlainTextAsksForInfo | backend/app/plan_validator.py:114-146 | Findings that mention no new form and nothing generic or assumed get the missing-details list, or the fallback when it is empty. |
| PlanValidator.FieldTypeListedFirst | backend/app/plan_validator.py:136-137 | A finding that mentions `field_type` puts "field types" first in the missing-details list. |
| PlanValidator.LoneMissingTypeAsksForTypes | backend/app/plan_validator.py:103-144 | A plan whose only finding is an insert without a field type, on a plainly named field, asks for more information, listing the field types first. |
| PlanValidator.ShouldAskClarification | backend/app/plan_validator.py:103-146 | No issues gives `(false, "")`. Any issue asks. The plan's own question is reused when the plan already flags itself. |
| PlanValidator.FlaggedPlanKeepsQuestion | backend/app/plan_validator.py:111-112 | A self-flagged plan with a question and non-empty lists gets back exactly its own question. |
| PromptInjection.RemoveControls | backend/app/prompt_injection.py:54 | Exactly the C0 controls other than tab, line feed and carriage return are removed. A single character is dropped if it is such a control and kept otherwise. |
| PromptInjection.RemoveControlsAppend | backend/app/prompt_injection.py:54 | Removal works character by character: it distributes over concatenation, so the kept characters stay in order. |
| PromptInjection.CollapseBlanks | backend/app/prompt_injection.py:56 | Every run of spaces and tabs becomes one space, leaving no tab and no double space. The other characters are kept, in order. |
| PromptInjection.CollapseBlanksRun | backend/app/prompt_injection.py:56 | A non-empty run of spaces and tabs alone becomes a single space. |
| PromptInjection.CollapseBlanksSplit | backend/app/prompt_injection.py:56 | Around a character that is neither space nor tab, the two sides collapse independently. |
| PromptInjection.CollapseNewlines | backend/app/prompt_injection.py:57 | Runs of three or more line feeds become two, and no double space is introduced. The characters other than line feeds are kept, in order. |
| PromptInjection.CollapseNewlinesRun | backend/app/prompt_injection.py:57 | A run of line feeds alone becomes two line feeds when it has three or more, and is kept otherwise. |
| PromptInjection.CollapseNewlinesSplit | backend/app/prompt_injection.py:57 | Around a character that is not a line feed, the two sides collapse independently. |
| PromptInjection.Truncate | backend/app/prompt_injection.py:59-60 | The text is cut to its first 10000 characters when longer, and otherwise kept. |
| PromptInjection.SanitizeInput | backend/app/prompt_injection.py:46-62 | Empty input yields "". The output is at most 10000 long and has no removed control, tab, double space, triple line feed, or leading or trailing whitespace. Text with none of those, within the length limit, is only stripped. |
| PromptInjection.SanitizedFixed | backend/app/prompt_injection.py:46-62 | A text that is already sanitised comes back unchanged. |
| PromptInjection.SanitizeIdempotent | backend/app/prompt_injection.py:46-62 | Sanitising a sanitised text changes nothing. |
| PromptInjection.WrapUserInput | backend/app/prompt_injection.py:65-75 | The result is the begin delimiter, a newline, the context, `:` and a newline, then the sanitised text, a newline and the end delimiter. The sanitised text can be sliced back out. |
| PyRepr.Repr | backend/app/plan_validator.py:62 | A name is printed between two copies of the chosen quote: double quotes when it holds `'` and no `"`, single quotes otherwise. |
| PyRepr.ReprRoundTrip | backend/app/plan_validator.py:62 | The printed name reads back as the name itself, so escaping loses nothing and no bare quote appears inside. |
| PyRepr.ReprPlain | backend/app/plan_validator.py:62 | A name without backslashes, control characters or `'` is printed as it is, between single quotes. |
| PyRepr.ReprApostrophe | backend/app/plan_validator.py:62 | A name with `'` but without `"`, backslashes or control characters is printed as it is, between double quotes. |
| Agent.AttemptPlanRepair | backend/app/agent.py:442-458 | A repaired plan always asks for clarification with the fixed question. Its notes carry the validation errors. Each of fields, options and logic blocks is copied only when it is a list in the raw object, and is empty otherwise. |
| Agent.RepairKeepsOnlyLists | backend/app/agent.py:451-457 | A non-empty list in the repair comes verbatim from the raw object. A non-object input yields all-empty lists. |
| Agent.RepairStable | backend/app/agent.py:442-458 | Repairing an already repaired plan keeps its lists and question. Only the notes change. |
| Agent.TouchedForms | backend/app/agent.py:514-528 | A form id is collected exactly when some row names it through a non-`$` `form_id`, or a `forms` update or delete has it as a non-`$` id. |
| Agent.TouchedOptionSets | backend/app/agent.py:529-533 | An option-set id is collected exactly when an `option_items` row carries it as a string `option_set_id`, placeholders included. |
| Agent.OptionSetForm | backend/app/agent.py:537-545 | The form of an option set comes from the first stored set with that id, and only when its form id is non-empty. |
| Agent.FormsToSnapshot | backend/app/agent.py:514-548 | The forms to snapshot are exactly the touched stored forms plus the forms of the touched option sets. |
| Agent.SortedIds | backend/app/agent.py:552 | The ids come out sorted, each exactly once. |
| Agent.BeforeSnapshotRequest | backend/app/agent.py:550-552 | A snapshot is requested exactly when some form is touched. The request lists those forms once each, in sorted order. |
| Agent.SnapshotCoversTouched | backend/app/agent.py:522-545 | Every non-`$` `form_id` of a row is snapshotted. So is the form of every touched option set that has one. |
| Agent.NewFormsNeedNoSnapshot | backend/app/agent.py:522-533 | A change-set that names only placeholder forms and has no option items requests no snapshot. |

## Left out

- Database access: SQL, aiosqlite, `fetch_one` and `fetch_all`. The database is a snapshot value, and `LIKE` is modelled as a matcher with `%` and `_` wildcards and ASCII case folding.
- `uuid4` randomness: placeholders and generated field codes draw from a counter. A placeholder suffix is the counter in zero-padded hex of at least 8 digits, in place of 8 random hex digits. A generated field code is `field_` and the counter in zero-padded hex of at least 6 digits, in place of 6 random hex digits (resolver.py:285).
- Python's `str.lower()` and `str.title()`: modelled on ASCII letters only. `str.strip()` uses Python's whitespace set.
- Non-dict rows and non-dict table sections: every `isinstance` guard that skips them is left out, because the change-set type holds rows only.
- Row and payload values are scalars: null, booleans, integers and strings. A Python list or dict as a condition's `rhs` or an action's `params` is not modelled.
- `rename_map` is a sequence of pairs. The uniqueness of a Python dict's keys is not enforced.
- The order of the names in the multiple-form-names message: it follows first appearance, while Python's set order is unspecified.
- The error text of a failed plan validation (`error.errors()`) is a string parameter, and validating the repaired dictionary into a plan is not modelled.
- The option-set lookup in `plan_and_resolve`: it is modelled as a read of the snapshot. Its exception handling and warning print are left out.
- The form snapshots themselves (`get_form_snapshots`): only the sorted id list requested is modelled.
- `detect_injection_attempt` and `validate_history_item`: their regular-expression matching and character-ratio heuristic are not modelled.
- The schema cache's global state (`get_schema_state`, `clear_schema_state`): the schema is a value passed in. The database ids a table holds are passed as a map, and a table whose query fails is absent from it.
- The structure validator's unused `referenced_ids` and `option_item_ids` sets: they are not modelled, since nothing reads them.
- The rest of the agent: model calls, prompts, the planning and critique passes, and the async request flow. Streaming, the HTTP layer, configuration and the test runners are also left out.
- Logic update and delete: they stage the three logic sections and no rows, as the code does. There is no cascade, priority probing or reference rewriting.
- Store.FormsByTitle: sorted by code point, where SQLite orders by the column's collation.
- Store.OptionItemsForField: each bound item is listed once. SQL's join would list an item once per binding row, and repeated bindings are not modelled.
- PyRepr.Repr: non-ASCII characters are written as they are. Python escapes the non-printable ones.
- Resolution.ResolveFormId: the `form_not_found` candidates are stated as the stored forms as a multiset. Their order by title is not stated.

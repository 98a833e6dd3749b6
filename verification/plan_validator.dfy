/** `detect_assumptions` and `should_ask_clarification`: the checks that find
    guessed or missing details in an intent plan, and the question the
    assistant asks the user when a check fired. */
module PlanValidator {
  import opened Wrappers
  import opened Values
  import opened Text
  import opened PyRepr
  import opened Seqs
  import I = IntentSchema

  // ---------------------------------------------------------------------------
  // Findings

  /** The intent lists a plan that asks for clarification should leave empty. */
  datatype IntentList = FieldList | OptionList | LogicList

  /** What one field intent can get wrong. */
  datatype FieldProblem =
    | GenericCode(code: string)
    | ShortCode(code: string)
    | GenericLabel(fieldLabel: string)
    | GenericFormName(formName: string)
    | MissingType(fieldRef: Option<string>)
    | MissingName

  /** What the fields destined for a new form can get wrong together. */
  datatype FormProblem = NoFormName | MultipleFormNames(names: seq<string>)

  /** What an option intent can get wrong. */
  datatype OptionProblem = NoValues(fieldRef: Option<string>) | GenericValue(value: string)

  /** What a logic block can get wrong. */
  datatype LogicProblem =
    | MissingDescription
    | MissingConditions
    | ConditionMissingLhs
    | ConditionMissingOperator
    | MissingActions
    | ActionMissingType
    | ActionMissingTarget

  /** One finding of `detect_assumptions`; `Message` gives its text. */
  datatype Issue =
    | NotEmptyWhileClarifying(list: IntentList)
    | FieldIssue(field: FieldProblem)
    | FormIssue(form: FormProblem)
    | OptionIssue(option: OptionProblem)
    | LogicIssue(logic: LogicProblem)

  /** Python's `repr` of a set of strings, listing them in the order given. */
  function SetRepr(names: seq<string>): string {
    "{" + Join(", ", seq(|names|, i requires 0 <= i < |names| => Repr(names[i]))) + "}"
  }

  function ListName(l: IntentList): string {
    match l
    case FieldList => "fields"
    case OptionList => "options"
    case LogicList => "logic_blocks"
  }

  function FieldMessage(p: FieldProblem): string {
    match p
    case GenericCode(code) => "Field code '" + code + "' appears to be generic or assumed"
    case ShortCode(code) => "Field code '" + code + "' is too short and may be generic"
    case GenericLabel(l) => "Field label '" + l + "' appears to be generic or assumed"
    case GenericFormName(n) => "Form name '" + n + "' appears to be generic or assumed"
    case MissingType(r) => "New field '" + Show(r) + "' missing required field_type"
    case MissingName => "Field missing both field_code and field_label"
  }

  function LogicMessage(p: LogicProblem): string {
    match p
    case MissingDescription => "Logic block missing description"
    case MissingConditions => "Logic block missing conditions"
    case ConditionMissingLhs => "Logic condition missing lhs_ref"
    case ConditionMissingOperator => "Logic condition missing operator"
    case MissingActions => "Logic block missing actions"
    case ActionMissingType => "Logic action missing action type"
    case ActionMissingTarget => "Logic action missing target_ref"
  }

  function Message(issue: Issue): string {
    match issue
    case NotEmptyWhileClarifying(l) =>
      "Plan has needs_clarification=true but contains " + ListName(l) + " - should be empty"
    case FieldIssue(p) => FieldMessage(p)
    case FormIssue(NoFormName) => "Creating new form but no form name or code specified"
    case FormIssue(MultipleFormNames(names)) => "Multiple form names specified for new form: " + SetRepr(names)
    case OptionIssue(NoValues(r)) => "Option intent for field '" + Show(r) + "' has no values to add"
    case OptionIssue(GenericValue(v)) => "Option value '" + v + "' appears to be generic or assumed"
    case LogicIssue(p) => LogicMessage(p)
  }

  // ---------------------------------------------------------------------------
  // Generic names

  const GenericNames: set<string> :=
    {"field", "input", "text", "name", "value", "item", "data", "form", "description", "title", "label"}

  const GenericFormNames: set<string> :=
    {"form", "new form", "my form", "the form", "a form", "form for", "form to"}

  /** `s.lower().strip()`. */
  function Normalized(s: string): string {
    Strip(Lower(s))
  }

  predicate IsGenericName(s: string) {
    Normalized(s) in GenericNames
  }

  /** Some generic form phrase occurs in the normalised name. */
  predicate HasGenericFormPhrase(name: string) {
    exists g :: g in GenericFormNames && Contains(Normalized(name), g)
  }

  // ---------------------------------------------------------------------------
  // Field intents, one check at a time

  /** The field-code check: a generic code, or else a code shorter than three
      characters; never both. */
  function CodeCheck(code: Option<string>): (r: Option<FieldProblem>)
    ensures r.Some? ==> Present(code) && (r.value == GenericCode(code.value) || r.value == ShortCode(code.value))
    ensures r.Some? && r.value.GenericCode? <==> Present(code) && IsGenericName(code.value)
    ensures r.Some? && r.value.ShortCode? <==> Present(code) && !IsGenericName(code.value) && |Normalized(code.value)| < 3
  {
    if !Present(code) then None
    else if IsGenericName(code.value) then Some(GenericCode(code.value))
    else if |Normalized(code.value)| < 3 then Some(ShortCode(code.value))
    else None
  }

  function LabelCheck(l: Option<string>): (r: Option<FieldProblem>)
    ensures r.Some? <==> Present(l) && IsGenericName(l.value)
    ensures r.Some? ==> r.value == GenericLabel(l.value)
  {
    if Present(l) && IsGenericName(l.value) then Some(GenericLabel(l.value)) else None
  }

  /** A form addressed by name only, whose name contains a generic phrase. */
  function FormNameCheck(t: I.TargetForm): (r: Option<FieldProblem>)
    ensures r.Some? <==> !Present(t.formId) && Present(t.formName) && HasGenericFormPhrase(t.formName.value)
    ensures r.Some? ==> r.value == GenericFormName(t.formName.value)
  {
    if !Present(t.formId) && Present(t.formName) && HasGenericFormPhrase(t.formName.value)
    then Some(GenericFormName(t.formName.value)) else None
  }

  /** An insert must name its field type; the finding names the field by code, else label. */
  function TypeCheck(f: I.FieldIntent): (r: Option<FieldProblem>)
    ensures r.Some? <==> f.operation == I.Insert && !Present(f.fieldType)
    ensures r.Some? ==> r.value == MissingType(OrElse(f.fieldCode, f.fieldLabel))
  {
    if f.operation == I.Insert && !Present(f.fieldType) then Some(MissingType(OrElse(f.fieldCode, f.fieldLabel))) else None
  }

  function NameCheck(f: I.FieldIntent): (r: Option<FieldProblem>)
    ensures r.Some? <==> !Present(f.fieldCode) && !Present(f.fieldLabel)
    ensures r.Some? ==> r.value == MissingName
  {
    if !Present(f.fieldCode) && !Present(f.fieldLabel) then Some(MissingName) else None
  }

  /** The values present in `checks`, in order. */
  function Somes<T(!new)>(checks: seq<Option<T>>): (r: seq<T>)
    ensures |r| <= |checks|
    ensures forall x :: x in r <==> Some(x) in checks
    decreases |checks|
  {
    if |checks| == 0 then []
    else
      assert forall o :: o in checks <==> o == checks[0] || o in checks[1..];
      (if checks[0].Some? then [checks[0].value] else []) + Somes(checks[1..])
  }

  function FieldChecks(f: I.FieldIntent): seq<Option<FieldProblem>> {
    [CodeCheck(f.fieldCode), LabelCheck(f.fieldLabel), FormNameCheck(f.targetForm), TypeCheck(f), NameCheck(f)]
  }

  /** The findings for one field intent, in the order they are checked: at most
      one per check, and never both a generic and a short code. */
  function FieldIssues(f: I.FieldIntent): (r: seq<FieldProblem>)
    ensures |r| <= 5
    ensures forall p :: p in r <==> Some(p) in FieldChecks(f)
    ensures forall a, b :: a in r && b in r && a.GenericCode? ==> !b.ShortCode?
  {
    Somes(FieldChecks(f))
  }

  // ---------------------------------------------------------------------------
  // The form a batch of new fields goes to

  /** Field inserts without a `form_id`: they go to a form named by name or code. */
  predicate IsNewFormField(f: I.FieldIntent) {
    f.operation == I.Insert && !Present(f.targetForm.formId)
  }

  predicate NamesNewForm(f: I.FieldIntent, n: string) {
    IsNewFormField(f) && Present(f.targetForm.formName) && f.targetForm.formName.value == n
  }

  /** The distinct form names of the new-form fields, in order of first appearance. */
  function NewFormNames(fields: seq<I.FieldIntent>): (r: seq<string>)
    ensures forall n :: n in r <==> exists f :: f in fields && NamesNewForm(f, n)
    ensures forall a, b :: 0 <= a < b < |r| ==> r[a] != r[b]
    decreases |fields|
  {
    if |fields| == 0 then []
    else
      var init := fields[..|fields| - 1];
      var f := fields[|fields| - 1];
      var names := NewFormNames(init);
      assert forall g :: g in fields <==> g in init || g == f;
      if IsNewFormField(f) && Present(f.targetForm.formName) && f.targetForm.formName.value !in names then
        var r := names + [f.targetForm.formName.value];
        assert forall n :: n in r <==> n in names || n == f.targetForm.formName.value;
        assert forall a :: 0 <= a < |names| ==> r[a] == names[a] && names[a] in names;
        assert f in fields;
        r
      else
        assert forall n :: NamesNewForm(f, n) ==> n in names;
        names
  }

  predicate HasNewFormField(fields: seq<I.FieldIntent>) {
    exists f :: f in fields && IsNewFormField(f)
  }

  predicate HasNewFormCode(fields: seq<I.FieldIntent>) {
    exists f :: f in fields && IsNewFormField(f) && Present(f.targetForm.formCode)
  }

  /** The new-form check: when some field goes to a new form, either no field
      names or codes that form, or more than one distinct name is given. */
  function NewFormCheck(fields: seq<I.FieldIntent>): (r: Option<FormProblem>)
    ensures r == Some(NoFormName) <==> HasNewFormField(fields) && |NewFormNames(fields)| == 0 && !HasNewFormCode(fields)
    ensures r.Some? && r.value.MultipleFormNames? <==> HasNewFormField(fields) && |NewFormNames(fields)| > 1
    ensures r.Some? && r.value.MultipleFormNames? ==> r.value.names == NewFormNames(fields)
  {
    if !HasNewFormField(fields) then None
    else
      var names := NewFormNames(fields);
      if |names| == 0 && !HasNewFormCode(fields) then Some(NoFormName)
      else if |names| > 1 then Some(MultipleFormNames(names))
      else None
  }

  /** Two fields bound for a new form under different names always raise the
      multiple-names finding. */
  lemma TwoNamesFlagged(fields: seq<I.FieldIntent>, a: nat, b: nat)
    requires a < |fields| && b < |fields|
    requires IsNewFormField(fields[a]) && IsNewFormField(fields[b])
    requires Present(fields[a].targetForm.formName) && Present(fields[b].targetForm.formName)
    requires fields[a].targetForm.formName != fields[b].targetForm.formName
    ensures NewFormCheck(fields) == Some(MultipleFormNames(NewFormNames(fields)))
  {
    var names := NewFormNames(fields);
    var na := fields[a].targetForm.formName.value;
    var nb := fields[b].targetForm.formName.value;
    assert NamesNewForm(fields[a], na) && NamesNewForm(fields[b], nb);
    assert na in names && nb in names;
    assert fields[a] in fields;
  }

  // ---------------------------------------------------------------------------
  // Option intents

  predicate IsGenericValue(v: string) {
    Normalized(v) in GenericNames || |Normalized(v)| < 2
  }

  /** The generic or too-short values among `values`, in order, repeats kept. */
  function GenericValues(values: seq<string>): (r: seq<OptionProblem>)
    ensures |r| <= |values|
    ensures forall p :: p in r <==> exists v :: v in values && IsGenericValue(v) && p == GenericValue(v)
    decreases |values|
  {
    if |values| == 0 then []
    else
      assert forall v :: v in values <==> v == values[0] || v in values[1..];
      (if IsGenericValue(values[0]) then [GenericValue(values[0])] else []) + GenericValues(values[1..])
  }

  /** The option-intent check, on inserts only: nothing to add and nothing to
      rename is one finding; otherwise each generic added value is one. */
  function OptionIssues(o: I.OptionIntent): (r: seq<OptionProblem>)
    ensures o.operation != I.Insert ==> r == []
    ensures NoValues(OrElse(o.fieldCode, o.fieldLabel)) in r <==>
      o.operation == I.Insert && |o.addValues| == 0 && |o.renameMap| == 0
    ensures forall p :: p in r && p.NoValues? ==> r == [p]
    ensures forall v :: GenericValue(v) in r <==> o.operation == I.Insert && v in o.addValues && IsGenericValue(v)
  {
    if o.operation != I.Insert then []
    else if |o.addValues| == 0 && |o.renameMap| == 0 then [NoValues(OrElse(o.fieldCode, o.fieldLabel))]
    else if |o.addValues| > 0 then GenericValues(o.addValues)
    else []
  }

  // ---------------------------------------------------------------------------
  // Logic intents

  /** Some row of `rows` has no truthy value under `key`. */
  predicate AnyLacks(rows: seq<Row>, key: string) {
    exists row :: row in rows && !Truthy(Get(row, key, Null))
  }

  /** Per condition, a missing `lhs_ref`, then a missing `operator`. */
  function ConditionIssues(conds: seq<Row>): (r: seq<LogicProblem>)
    ensures ConditionMissingLhs in r <==> AnyLacks(conds, "lhs_ref")
    ensures ConditionMissingOperator in r <==> AnyLacks(conds, "operator")
    ensures forall p :: p in r ==> p == ConditionMissingLhs || p == ConditionMissingOperator
    decreases |conds|
  {
    if |conds| == 0 then []
    else
      var c := conds[0];
      assert forall x :: x in conds <==> x == c || x in conds[1..];
      (if !Truthy(Get(c, "lhs_ref", Null)) then [ConditionMissingLhs] else [])
      + (if !Truthy(Get(c, "operator", Null)) then [ConditionMissingOperator] else [])
      + ConditionIssues(conds[1..])
  }

  /** Per action, a missing `action`, then a missing `target_ref`. */
  function ActionIssues(actions: seq<Row>): (r: seq<LogicProblem>)
    ensures ActionMissingType in r <==> AnyLacks(actions, "action")
    ensures ActionMissingTarget in r <==> AnyLacks(actions, "target_ref")
    ensures forall p :: p in r ==> p == ActionMissingType || p == ActionMissingTarget
    decreases |actions|
  {
    if |actions| == 0 then []
    else
      var a := actions[0];
      assert forall x :: x in actions <==> x == a || x in actions[1..];
      (if !Truthy(Get(a, "action", Null)) then [ActionMissingType] else [])
      + (if !Truthy(Get(a, "target_ref", Null)) then [ActionMissingTarget] else [])
      + ActionIssues(actions[1..])
  }

  /** An empty conditions list is one finding; otherwise each condition is checked. */
  function ConditionsCheck(conds: seq<Row>): (r: seq<LogicProblem>)
    ensures MissingConditions in r <==> |conds| == 0
    ensures ConditionMissingLhs in r <==> AnyLacks(conds, "lhs_ref")
    ensures ConditionMissingOperator in r <==> AnyLacks(conds, "operator")
    ensures forall p :: p in r ==> p == MissingConditions || p == ConditionMissingLhs || p == ConditionMissingOperator
  {
    if |conds| == 0 then [MissingConditions] else ConditionIssues(conds)
  }

  /** An empty actions list is one finding; otherwise each action is checked. */
  function ActionsCheck(actions: seq<Row>): (r: seq<LogicProblem>)
    ensures MissingActions in r <==> |actions| == 0
    ensures ActionMissingType in r <==> AnyLacks(actions, "action")
    ensures ActionMissingTarget in r <==> AnyLacks(actions, "target_ref")
    ensures forall p :: p in r ==> p == MissingActions || p == ActionMissingType || p == ActionMissingTarget
  {
    if |actions| == 0 then [MissingActions] else ActionIssues(actions)
  }

  /** The findings for one logic block: its description, then its conditions,
      then its actions. */
  function LogicIssues(l: I.LogicIntent): (r: seq<LogicProblem>)
    ensures MissingDescription in r <==> l.description == ""
    ensures forall p :: p in r && p != MissingDescription ==>
      p in ConditionsCheck(l.payload.conditions) || p in ActionsCheck(l.payload.actions)
    ensures forall p :: p in ConditionsCheck(l.payload.conditions) || p in ActionsCheck(l.payload.actions) ==> p in r
  {
    var head := if l.description == "" then [MissingDescription] else [];
    var conds := ConditionsCheck(l.payload.conditions);
    var actions := ActionsCheck(l.payload.actions);
    assert MissingDescription !in conds && MissingDescription !in actions;
    head + conds + actions
  }

  // ---------------------------------------------------------------------------
  // The whole plan

  /** Some intent of the list yields the finding `p` (`FlatMap` states it
      as: for some index `k`, `p` is among the findings of intent `k`). */
  predicate FlaggedByField(fields: seq<I.FieldIntent>, p: FieldProblem) {
    p in FlatMap(fields, FieldIssues)
  }

  predicate FlaggedByOption(options: seq<I.OptionIntent>, p: OptionProblem) {
    p in FlatMap(options, OptionIssues)
  }

  predicate FlaggedByLogic(blocks: seq<I.LogicIntent>, p: LogicProblem) {
    p in FlatMap(blocks, LogicIssues)
  }

  function TagFields(ps: seq<FieldProblem>): (r: seq<Issue>)
    ensures forall x :: x in r ==> x.FieldIssue?
    ensures forall p :: FieldIssue(p) in r <==> p in ps
    decreases |ps|
  {
    if |ps| == 0 then [] else
      assert forall p :: p in ps <==> p == ps[0] || p in ps[1..];
      [FieldIssue(ps[0])] + TagFields(ps[1..])
  }

  function TagOptions(ps: seq<OptionProblem>): (r: seq<Issue>)
    ensures forall x :: x in r ==> x.OptionIssue?
    ensures forall p :: OptionIssue(p) in r <==> p in ps
    decreases |ps|
  {
    if |ps| == 0 then [] else
      assert forall p :: p in ps <==> p == ps[0] || p in ps[1..];
      [OptionIssue(ps[0])] + TagOptions(ps[1..])
  }

  function TagLogic(ps: seq<LogicProblem>): (r: seq<Issue>)
    ensures forall x :: x in r ==> x.LogicIssue?
    ensures forall p :: LogicIssue(p) in r <==> p in ps
    decreases |ps|
  {
    if |ps| == 0 then [] else
      assert forall p :: p in ps <==> p == ps[0] || p in ps[1..];
      [LogicIssue(ps[0])] + TagLogic(ps[1..])
  }

  function FieldsIssues(fields: seq<I.FieldIntent>): (r: seq<Issue>)
    ensures forall x :: x in r ==> x.FieldIssue?
    ensures forall p :: FieldIssue(p) in r <==> FlaggedByField(fields, p)
  {
    TagFields(FlatMap(fields, FieldIssues))
  }


  function OptionsIssues(options: seq<I.OptionIntent>): (r: seq<Issue>)
    ensures forall x :: x in r ==> x.OptionIssue?
    ensures forall p :: OptionIssue(p) in r <==> FlaggedByOption(options, p)
  {
    TagOptions(FlatMap(options, OptionIssues))
  }


  function LogicsIssues(blocks: seq<I.LogicIntent>): (r: seq<Issue>)
    ensures forall x :: x in r ==> x.LogicIssue?
    ensures forall p :: LogicIssue(p) in r <==> FlaggedByLogic(blocks, p)
  {
    TagLogic(FlatMap(blocks, LogicIssues))
  }


  /** A plan asking for clarification is checked only for intents it should not carry. */
  function ClarifyingIssues(plan: I.IntentPlan): (r: seq<Issue>)
    ensures |r| <= 3
    ensures forall x :: x in r ==> x.NotEmptyWhileClarifying?
    ensures NotEmptyWhileClarifying(FieldList) in r <==> |plan.fields| > 0
    ensures NotEmptyWhileClarifying(OptionList) in r <==> |plan.options| > 0
    ensures NotEmptyWhileClarifying(LogicList) in r <==> |plan.logicBlocks| > 0
  {
    (if |plan.fields| > 0 then [NotEmptyWhileClarifying(FieldList)] else [])
    + (if |plan.options| > 0 then [NotEmptyWhileClarifying(OptionList)] else [])
    + (if |plan.logicBlocks| > 0 then [NotEmptyWhileClarifying(LogicList)] else [])
  }

  function FormIssues(fields: seq<I.FieldIntent>): (r: seq<Issue>)
    ensures forall x :: x in r ==> x.FormIssue?
    ensures forall p :: FormIssue(p) in r <==> NewFormCheck(fields) == Some(p)
  {
    match NewFormCheck(fields)
    case None => []
    case Some(p) => [FormIssue(p)]
  }

  /** The field findings, then the new-form finding. */
  function FieldSideIssues(fields: seq<I.FieldIntent>): (r: seq<Issue>)
    ensures forall x :: x in r ==> x.FieldIssue? || x.FormIssue?
    ensures forall p :: FieldIssue(p) in r <==> FlaggedByField(fields, p)
    ensures forall p :: FormIssue(p) in r <==> NewFormCheck(fields) == Some(p)
  {
    FieldsIssues(fields) + FormIssues(fields)
  }

  /** The option findings, then the logic findings. */
  function RestIssues(options: seq<I.OptionIntent>, blocks: seq<I.LogicIntent>): (r: seq<Issue>)
    ensures forall x :: x in r ==> x.OptionIssue? || x.LogicIssue?
    ensures forall p :: OptionIssue(p) in r <==> FlaggedByOption(options, p)
    ensures forall p :: LogicIssue(p) in r <==> FlaggedByLogic(blocks, p)
  {
    OptionsIssues(options) + LogicsIssues(blocks)
  }

  /** The findings for a plan that does not ask for clarification: those of
      the fields and their new form first, then those of the options and the
      logic blocks. */
  function PlanIssues(plan: I.IntentPlan): (r: seq<Issue>)
    ensures forall x :: x in r <==> x in FieldSideIssues(plan.fields) || x in RestIssues(plan.options, plan.logicBlocks)
  {
    FieldSideIssues(plan.fields) + RestIssues(plan.options, plan.logicBlocks)
  }

  /** `detect_assumptions` as findings. A plan that asks for clarification is
      checked only for the intents it should not carry. */
  function DetectIssues(plan: I.IntentPlan): (r: seq<Issue>)
    ensures plan.needsClarification ==> r == ClarifyingIssues(plan)
    ensures !plan.needsClarification ==> r == PlanIssues(plan)
  {
    if plan.needsClarification then ClarifyingIssues(plan) else PlanIssues(plan)
  }

  /** A plan without intents raises no finding, whether or not it asks for
      clarification itself. */
  lemma NoIntentsNoIssues(plan: I.IntentPlan)
    requires plan.fields == [] && plan.options == [] && plan.logicBlocks == []
    ensures DetectIssues(plan) == [] && DetectAssumptions(plan) == []
  {
  }

  /** `detect_assumptions`: the findings as messages. */
  function DetectAssumptions(plan: I.IntentPlan): (r: seq<string>)
    ensures |r| == |DetectIssues(plan)|
    ensures forall k :: 0 <= k < |r| ==> r[k] == Message(DetectIssues(plan)[k])
  {
    var issues := DetectIssues(plan);
    seq(|issues|, k requires 0 <= k < |issues| => Message(issues[k]))
  }

  /** Per field: a generic code is reported as generic, and a code reported as
      too short is never a generic one. */
  lemma CodeFindings(f: I.FieldIntent)
    ensures Present(f.fieldCode) && IsGenericName(f.fieldCode.value) ==> GenericCode(f.fieldCode.value) in FieldIssues(f)
    ensures forall c :: ShortCode(c) in FieldIssues(f) ==> !IsGenericName(c)
  {
    var checks := FieldChecks(f);
    assert checks[0] == CodeCheck(f.fieldCode);
    forall c | ShortCode(c) in FieldIssues(f) ensures !IsGenericName(c) {
      var i :| 0 <= i < |checks| && checks[i] == Some(ShortCode(c));
      assert i == 0;
    }
  }

  /** Outside clarification, a field problem is detected exactly when some field has it. */
  lemma DetectedFieldIssue(plan: I.IntentPlan, p: FieldProblem)
    requires !plan.needsClarification
    ensures FieldIssue(p) in DetectIssues(plan) <==> p in FlatMap(plan.fields, FieldIssues)
  {
    assert DetectIssues(plan) == PlanIssues(plan);
  }

  /** A generic field code anywhere in a plan that does not ask for
      clarification is reported as generic, and never as too short, whichever
      field carries it. */
  lemma GenericCodeReported(plan: I.IntentPlan, k: nat)
    requires !plan.needsClarification && k < |plan.fields|
    requires Present(plan.fields[k].fieldCode) && IsGenericName(plan.fields[k].fieldCode.value)
    ensures FieldIssue(GenericCode(plan.fields[k].fieldCode.value)) in DetectIssues(plan)
    ensures FieldIssue(ShortCode(plan.fields[k].fieldCode.value)) !in DetectIssues(plan)
  {
    var code := plan.fields[k].fieldCode.value;
    var all := FlatMap(plan.fields, FieldIssues);
    DetectedFieldIssue(plan, GenericCode(code));
    DetectedFieldIssue(plan, ShortCode(code));
    CodeFindings(plan.fields[k]);
    assert GenericCode(code) in all;
    if ShortCode(code) in all {
      var j :| 0 <= j < |plan.fields| && ShortCode(code) in FieldIssues(plan.fields[j]);
      CodeFindings(plan.fields[j]);
    }
  }

  /** A plan that asks for clarification and carries no intents has nothing to report. */
  lemma ClarifyingPlanClean(plan: I.IntentPlan)
    requires plan.needsClarification
    ensures |DetectIssues(plan)| == 0 <==> |plan.fields| == 0 && |plan.options| == 0 && |plan.logicBlocks| == 0
  {
    var r := DetectIssues(plan);
    if |r| == 0 {
      assert NotEmptyWhileClarifying(FieldList) !in r;
      assert NotEmptyWhileClarifying(OptionList) !in r;
      assert NotEmptyWhileClarifying(LogicList) !in r;
    }
  }

  // ---------------------------------------------------------------------------
  // The question

  /** Some message, lower-cased, contains `needle`. */
  predicate AnyContains(issues: seq<string>, needle: string) {
    exists k :: 0 <= k < |issues| && Contains(Lower(issues[k]), needle)
  }

  const CreateFormPrefix: string := "To create this form, I need: "

  /** `" ".join(f"{i+1}) {part}" ...)`, numbering from `from`. */
  function Numbered(parts: seq<string>, from: nat): string
    decreases |parts|
  {
    if |parts| == 0 then ""
    else
      var item := IntToString(from) + ") " + parts[0];
      if |parts| == 1 then item else item + " " + Numbered(parts[1..], from + 1)
  }

  const NamePart: string := "What should the form be called? (Please provide a specific name or title)"
  const FieldsPart: string := "What fields should be on the form? (Please specify: field names, types, and which are required)"
  const TypesPart: string := "What types should the fields be? (e.g., text, dropdown, number, etc.)"

  /** What the form-creation question asks for, given the joined lower-cased findings. */
  function MissingParts(text: string): seq<string> {
    (if Contains(text, "form name") || Contains(text, "no form name") then [NamePart] else [])
    + (if Contains(text, "field") && (Contains(text, "missing") || Contains(text, "generic")) then [FieldsPart] else [])
    + (if Contains(text, "field_type") then [TypesPart] else [])
  }

  /** The details the fallback question lists. */
  function MissingInfo(issues: seq<string>): seq<string> {
    (if AnyContains(issues, "field_type") then ["field types"] else [])
    + (if AnyContains(issues, "field_code") || AnyContains(issues, "field_label") then ["field names/labels"] else [])
    + (if exists k :: 0 <= k < |issues| && Contains(Lower(issues[k]), "option") && Contains(Lower(issues[k]), "value")
       then ["option values"] else [])
    + (if exists k :: 0 <= k < |issues| && Contains(Lower(issues[k]), "logic")
                      && (Contains(Lower(issues[k]), "condition") || Contains(Lower(issues[k]), "action"))
       then ["logic rule details"] else [])
  }

  const GenericFieldsQuestion: string :=
    "I noticed some field names appear to be generic. Please provide specific, descriptive names for each field."
  const GenericFormQuestion: string := "I need a specific name for the form. Please provide a descriptive title."
  const MoreInfoPrefix: string := "I need more information to complete your request. Please specify: "
  const FallbackQuestion: string :=
    "I need more details to understand your request. Could you please provide more specific information?"

  /** The question built from the findings' text, checked in this order: a new
      form with missing parts, generic field names, a generic form name, the
      missing details by kind, and a general request. */
  function Question(issues: seq<string>): (r: string)
    ensures r != ""
    ensures var text := Lower(Join(" ", issues));
      (Contains(text, "new form") || Contains(text, "creating new form")) && |MissingParts(text)| > 0
      ==> r == CreateFormPrefix + Numbered(MissingParts(text), 1)
    ensures var text := Lower(Join(" ", issues));
      !((Contains(text, "new form") || Contains(text, "creating new form")) && |MissingParts(text)| > 0)
      && (Contains(text, "generic") || Contains(text, "assumed")) && Contains(text, "field")
      ==> r == GenericFieldsQuestion
    ensures var text := Lower(Join(" ", issues));
      !((Contains(text, "new form") || Contains(text, "creating new form")) && |MissingParts(text)| > 0)
      && (Contains(text, "generic") || Contains(text, "assumed")) && !Contains(text, "field") && Contains(text, "form")
      ==> r == GenericFormQuestion
    ensures var text := Lower(Join(" ", issues));
      !((Contains(text, "new form") || Contains(text, "creating new form")) && |MissingParts(text)| > 0)
      && !((Contains(text, "generic") || Contains(text, "assumed")) && (Contains(text, "field") || Contains(text, "form")))
      ==> r == (if |MissingInfo(issues)| > 0 then MoreInfoPrefix + Join(", ", MissingInfo(issues)) + "." else FallbackQuestion)
  {
    var text := Lower(Join(" ", issues));
    var parts := MissingParts(text);
    if (Contains(text, "new form") || Contains(text, "creating new form")) && |parts| > 0 then
      CreateFormPrefix + Numbered(parts, 1)
    else if (Contains(text, "generic") || Contains(text, "assumed")) && Contains(text, "field") then
      GenericFieldsQuestion
    else if (Contains(text, "generic") || Contains(text, "assumed")) && Contains(text, "form") then
      GenericFormQuestion
    else
      var info := MissingInfo(issues);
      if |info| > 0 then MoreInfoPrefix + Join(", ", info) + "."
      else FallbackQuestion
  }

  /** `should_ask_clarification`: no findings, no question; otherwise always ask,
      reusing the plan's own question when it flags itself and has one. */
  function ShouldAskClarification(plan: I.IntentPlan, issues: seq<string>, query: string): (r: (bool, string))
    ensures r.0 <==> |issues| > 0
    ensures |issues| == 0 ==> r.1 == ""
    ensures |issues| > 0 ==> r.1 != ""
    ensures |issues| > 0 && plan.needsClarification && Present(plan.clarificationQuestion) ==>
      r.1 == plan.clarificationQuestion.value
    ensures |issues| > 0 && !(plan.needsClarification && Present(plan.clarificationQuestion)) ==> r.1 == Question(issues)
  {
    if |issues| == 0 then (false, "")
    else if plan.needsClarification && Present(plan.clarificationQuestion) then (true, plan.clarificationQuestion.value)
    else (true, Question(issues))
  }

  /** Detection feeding the question: a plan that flags itself, carries intents
      anyway and has its own question gets that question back. */
  lemma FlaggedPlanKeepsQuestion(plan: I.IntentPlan, query: string)
    requires plan.needsClarification && Present(plan.clarificationQuestion)
    requires |plan.fields| > 0 || |plan.options| > 0 || |plan.logicBlocks| > 0
    ensures ShouldAskClarification(plan, DetectAssumptions(plan), query) == (true, plan.clarificationQuestion.value)
  {
    ClarifyingPlanClean(plan);
  }

  // ---------------------------------------------------------------------------
  // From findings to the question

  /** The findings' text as the question builder searches it. */
  function IssuesText(issues: seq<string>): string {
    Lower(Join(" ", issues))
  }

  /** Each finding's lower-cased message occurs in the findings' text. */
  lemma MessageInText(issues: seq<string>, k: nat)
    requires k < |issues|
    ensures Contains(IssuesText(issues), Lower(issues[k]))
  {
    JoinContains(" ", issues, k);
    LowerContains(Join(" ", issues), issues[k]);
  }

  /** "creating new form" in a text means "new form" is in it. */
  lemma CreatingMentionsNewForm(text: string)
    requires Contains(text, "creating new form")
    ensures Contains(text, "new form")
  {
    var lit := "creating new form";
    assert lit[9..9 + 8] == "new form";
    assert OccursAt(lit, "new form", 9);
    ContainsAt(lit, "new form");
    ContainsTransitive(text, lit, "new form");
  }

  /** Findings are raised only outside clarification, except the non-empty-list ones. */
  lemma FlaggedOnlyWhenPlanned(plan: I.IntentPlan, issue: Issue)
    requires issue in DetectIssues(plan) && !issue.NotEmptyWhileClarifying?
    ensures !plan.needsClarification
  {
  }

  /** Lower-casing the literal phrases the question looks for. */
  lemma LowerWords()
    ensures Lower("Field") == "field" && Lower("generic") == "generic"
    ensures Lower("new form") == "new form" && Lower("form name") == "form name"
    ensures Lower("field_type") == "field_type"
  {
    assert Lower("Field") == "field";
    assert Lower("generic") == "generic";
    assert Lower("new form") == "new form";
    assert Lower("form name") == "form name";
    assert Lower("field_type") == "field_type";
  }

  /** `needle` occurs, lower-cased, in the lower-cased `a + needle + c`. */
  lemma LowerInfix(a: string, needle: string, c: string)
    ensures Contains(Lower(a + needle + c), Lower(needle))
  {
    ContainsInfix(a, needle, c);
    LowerContains(a + needle + c, needle);
  }

  /** The message of a generic-code finding mentions a field ... */
  lemma GenericCodeMentionsField(code: string)
    ensures Contains(Lower(FieldMessage(GenericCode(code))), "field")
  {
    assert FieldMessage(GenericCode(code)) == "" + "Field" + (" code '" + code + "' appears to be generic or assumed");
    LowerInfix("", "Field", " code '" + code + "' appears to be generic or assumed");
    LowerWords();
  }

  /** ... and something generic. */
  lemma GenericCodeMentionsGeneric(code: string)
    ensures Contains(Lower(FieldMessage(GenericCode(code))), "generic")
  {
    assert FieldMessage(GenericCode(code)) == "Field code '" + code + "' appears to be " + "generic" + " or assumed";
    LowerInfix("Field code '" + code + "' appears to be ", "generic", " or assumed");
    LowerWords();
  }

  /** A generic field code is answered by the request for specific field names,
      or, when some finding speaks of a new form, by the form-creation question
      asking which fields the form should have. */
  lemma GenericCodeAsksForNames(plan: I.IntentPlan, code: string, query: string)
    requires FieldIssue(GenericCode(code)) in DetectIssues(plan)
    ensures var issues := DetectAssumptions(plan);
            var text := IssuesText(issues);
            var q := ShouldAskClarification(plan, issues, query);
            && q.0
            && (!Contains(text, "new form") ==> q.1 == GenericFieldsQuestion)
            && (Contains(text, "new form") ==>
                  q.1 == CreateFormPrefix + Numbered(MissingParts(text), 1) && FieldsPart in MissingParts(text))
  {
    var issues := DetectAssumptions(plan);
    var text := IssuesText(issues);
    FlaggedOnlyWhenPlanned(plan, FieldIssue(GenericCode(code)));
    var k :| 0 <= k < |DetectIssues(plan)| && DetectIssues(plan)[k] == FieldIssue(GenericCode(code));
    assert issues[k] == FieldMessage(GenericCode(code));
    MessageInText(issues, k);
    GenericCodeMentionsField(code);
    GenericCodeMentionsGeneric(code);
    ContainsTransitive(text, Lower(issues[k]), "field");
    ContainsTransitive(text, Lower(issues[k]), "generic");
    if Contains(text, "creating new form") {
      CreatingMentionsNewForm(text);
    }
  }

  lemma NoFormNameSplit()
    ensures "Creating new form but no form name or code specified"
            == "Creating " + "new form" + " but no form name or code specified"
  {
  }

  /** The message of the no-form-name finding speaks of a new form ... */
  lemma NoFormNameMentionsNewForm()
    ensures Contains(Lower(Message(FormIssue(NoFormName))), "new form")
  {
    assert Message(FormIssue(NoFormName)) == "Creating new form but no form name or code specified";
    NoFormNameSplit();
    LowerInfix("Creating ", "new form", " but no form name or code specified");
    LowerWords();
  }

  /** ... and of its name. */
  lemma NoFormNameMentionsName()
    ensures Contains(Lower(Message(FormIssue(NoFormName))), "form name")
  {
    var m := Message(FormIssue(NoFormName));
    assert m == "Creating new form but no form name or code specified";
    assert m == "Creating new form but no " + "form name" + " or code specified";
    LowerInfix("Creating new form but no ", "form name", " or code specified");
    LowerWords();
  }

  /** A new form without a name or code is answered by the form-creation
      question, whose first request is the form's name. */
  lemma NoFormNameAsksForName(plan: I.IntentPlan, query: string)
    requires FormIssue(NoFormName) in DetectIssues(plan)
    ensures var issues := DetectAssumptions(plan);
            var text := IssuesText(issues);
            && ShouldAskClarification(plan, issues, query) == (true, CreateFormPrefix + Numbered(MissingParts(text), 1))
            && |MissingParts(text)| > 0 && MissingParts(text)[0] == NamePart
  {
    var issues := DetectAssumptions(plan);
    var text := IssuesText(issues);
    FlaggedOnlyWhenPlanned(plan, FormIssue(NoFormName));
    var k :| 0 <= k < |DetectIssues(plan)| && DetectIssues(plan)[k] == FormIssue(NoFormName);
    assert issues[k] == Message(FormIssue(NoFormName));
    MessageInText(issues, k);
    NoFormNameMentionsNewForm();
    NoFormNameMentionsName();
    ContainsTransitive(text, Lower(issues[k]), "new form");
    ContainsTransitive(text, Lower(issues[k]), "form name");
  }

  /** A name that none of the question's trigger phrases can be found in. */
  predicate PlainName(name: string) {
    !Contains(Lower(name), "new form") && !Contains(Lower(name), "generic") && !Contains(Lower(name), "assumed")
  }

  const MissingTypeSuffix: string := " missing required field_type"

  lemma MissingTypeParts(name: string)
    ensures FieldMessage(MissingType(Some(name))) == "New field " + ['\''] + (name + ['\''] + MissingTypeSuffix)
  {
    assert FieldMessage(MissingType(Some(name))) == "New field '" + name + "' missing required field_type";
    QuoteEnds();
    Assemble4("New field ", ['\''], name, ['\''] + MissingTypeSuffix);
  }

  lemma QuoteEnds()
    ensures "New field '" == "New field " + ['\'']
    ensures "' missing required field_type" == ['\''] + MissingTypeSuffix
  {
  }

  lemma Assemble4(a: string, b: string, c: string, d: string)
    ensures (a + b) + c + d == a + b + (c + d)
  {
  }

  /** Lower-casing around a single quote, which is no letter. */
  lemma LowerQuoted(a: string, b: string)
    ensures Lower(a + ['\''] + b) == Lower(a) + ['\''] + Lower(b)
  {
    LowerAppend(a + ['\''], b);
    LowerAppend(a, ['\'']);
  }

  lemma MissingTypeLower(name: string)
    ensures Lower(FieldMessage(MissingType(Some(name))))
              == Lower("New field ") + ['\''] + (Lower(name) + ['\''] + Lower(MissingTypeSuffix))
  {
    var pre := "New field ";
    MissingTypeParts(name);
    LowerQuoted(pre, name + ['\''] + MissingTypeSuffix);
    LowerQuoted(name, MissingTypeSuffix);
  }

  /** The missing-type message around a plain name holds none of those phrases;
      `c` is a letter of the phrase that the fixed text lacks in either case. */
  lemma MissingTypeTextLacks(name: string, needle: string, c: char)
    requires '\'' !in needle && c in needle && IsAsciiLower(c)
    requires c !in "New field " && UpperChar(c) !in "New field "
    requires c !in MissingTypeSuffix && UpperChar(c) !in MissingTypeSuffix
    requires !Contains(Lower(name), needle)
    ensures !Contains(Lower(FieldMessage(MissingType(Some(name)))), needle)
  {
    MissingTypeLower(name);
    LowerLacks("New field ", c);
    LowerLacks(MissingTypeSuffix, c);
    MissingChar(Lower("New field "), needle, c);
    MissingChar(Lower(MissingTypeSuffix), needle, c);
    if Contains(Lower(FieldMessage(MissingType(Some(name)))), needle) {
      ContainsAcross(Lower("New field "), '\'', Lower(name) + ['\''] + Lower(MissingTypeSuffix), needle);
      ContainsAcross(Lower(name), '\'', Lower(MissingTypeSuffix), needle);
    }
  }

  /** Around a plain name, the missing-type message holds none of the phrases
      that would pick another question. */
  lemma PlainMissingTypeText(name: string)
    requires PlainName(name)
    ensures var text := Lower(FieldMessage(MissingType(Some(name))));
            !Contains(text, "new form") && !Contains(text, "generic") && !Contains(text, "assumed")
  {
    LacksNewForm(name);
    LacksGeneric(name);
    LacksAssumed(name);
  }

  lemma LacksNewForm(name: string)
    requires !Contains(Lower(name), "new form")
    ensures !Contains(Lower(FieldMessage(MissingType(Some(name)))), "new form")
  {
    MissingTypeTextLacks(name, "new form", 'o');
  }

  lemma LacksGeneric(name: string)
    requires !Contains(Lower(name), "generic")
    ensures !Contains(Lower(FieldMessage(MissingType(Some(name)))), "generic")
  {
    MissingTypeTextLacks(name, "generic", 'c');
  }

  lemma LacksAssumed(name: string)
    requires !Contains(Lower(name), "assumed")
    ensures !Contains(Lower(FieldMessage(MissingType(Some(name)))), "assumed")
  {
    MissingTypeTextLacks(name, "assumed", 'a');
  }

  /** The missing-type message always asks for the field type. */
  lemma MissingTypeTextNamesType(name: string)
    ensures Contains(Lower(FieldMessage(MissingType(Some(name)))), "field_type")
  {
    assert FieldMessage(MissingType(Some(name))) == "New field '" + name + "' missing required " + "field_type" + "";
    LowerInfix("New field '" + name + "' missing required ", "field_type", "");
    LowerWords();
  }

  /** Findings that trigger neither the form-creation nor the generic-name
      question fall through to the request for the missing details. */
  lemma PlainTextAsksForInfo(issues: seq<string>)
    requires !Contains(IssuesText(issues), "new form")
    requires !Contains(IssuesText(issues), "generic") && !Contains(IssuesText(issues), "assumed")
    ensures Question(issues)
              == (if |MissingInfo(issues)| > 0 then MoreInfoPrefix + Join(", ", MissingInfo(issues)) + "." else FallbackQuestion)
  {
    if Contains(IssuesText(issues), "creating new form") {
      CreatingMentionsNewForm(IssuesText(issues));
    }
  }

  /** A finding that names `field_type` puts the field types first in the list. */
  lemma FieldTypeListedFirst(issues: seq<string>)
    requires AnyContains(issues, "field_type")
    ensures |MissingInfo(issues)| > 0 && MissingInfo(issues)[0] == "field types"
  {
  }

  /** The single missing-type finding is the whole of the text searched. */
  lemma LoneMissingTypeText(plan: I.IntentPlan, name: string)
    requires DetectIssues(plan) == [FieldIssue(MissingType(Some(name)))]
    ensures DetectAssumptions(plan) == [FieldMessage(MissingType(Some(name)))]
    ensures IssuesText(DetectAssumptions(plan)) == Lower(FieldMessage(MissingType(Some(name))))
  {
  }

  /** A lone missing field type, on a field named plainly, is answered by the
      request for more information whose first item is the field types. */
  lemma LoneMissingTypeAsksForTypes(plan: I.IntentPlan, name: string, query: string)
    requires DetectIssues(plan) == [FieldIssue(MissingType(Some(name)))]
    requires PlainName(name)
    ensures var issues := DetectAssumptions(plan);
            && ShouldAskClarification(plan, issues, query)
                 == (true, MoreInfoPrefix + Join(", ", MissingInfo(issues)) + ".")
            && |MissingInfo(issues)| > 0 && MissingInfo(issues)[0] == "field types"
  {
    var issues := DetectAssumptions(plan);
    var m := FieldMessage(MissingType(Some(name)));
    FlaggedOnlyWhenPlanned(plan, FieldIssue(MissingType(Some(name))));
    LoneMissingTypeText(plan, name);
    PlainMissingTypeText(name);
    PlainTextAsksForInfo(issues);
    MissingTypeTextNamesType(name);
    assert issues[0] == m;
    assert AnyContains(issues, "field_type");
    FieldTypeListedFirst(issues);
  }
}

/** The intent plan produced by the planner: what to insert, update or delete,
    addressed by form and field names or codes rather than by identifiers. */
module IntentSchema {
  import opened Wrappers
  import opened Values

  /** Every intent carries exactly one of the three operations. */
  datatype OperationType = Insert | Update | Delete

  /** The operation's string value (`OperationType.value`). */
  function OperationValue(op: OperationType): string {
    match op
    case Insert => "insert"
    case Update => "update"
    case Delete => "delete"
  }

  /** A reference to a form by identifier, name or code; all optional. */
  datatype TargetForm = TargetForm(
    formId: Option<string> := None,
    formName: Option<string> := None,
    formCode: Option<string> := None)

  datatype FieldIntent = FieldIntent(
    operation: OperationType,
    targetForm: TargetForm,
    fieldCode: Option<string> := None,
    fieldLabel: Option<string> := None,
    fieldType: Option<string> := None,
    pageHint: Option<string> := None,
    properties: map<string, Value> := map[])

  /** `renameMap` is the ordered `dict[str, str]` of old value to new value. */
  datatype OptionIntent = OptionIntent(
    operation: OperationType,
    targetForm: TargetForm,
    fieldCode: Option<string> := None,
    fieldLabel: Option<string> := None,
    addValues: seq<string> := [],
    renameMap: seq<(string, string)> := [],
    removeValues: seq<string> := [])

  /** A logic payload: its scalar top-level entries (`trigger`, `scope`,
      `priority`, ...) and its `conditions` and `actions` lists, an absent list
      being the empty one. */
  datatype LogicPayload = LogicPayload(
    attributes: map<string, Value> := map[],
    conditions: seq<Row> := [],
    actions: seq<Row> := [])

  datatype LogicIntent = LogicIntent(
    operation: OperationType,
    targetForm: TargetForm,
    description: string,
    payload: LogicPayload := LogicPayload())

  datatype IntentPlan = IntentPlan(
    fields: seq<FieldIntent> := [],
    options: seq<OptionIntent> := [],
    logicBlocks: seq<LogicIntent> := [],
    notes: Option<string> := None,
    needsClarification: bool := false,
    clarificationQuestion: Option<string> := None)
}

/** `_apply_logic_intents`: a logic insert stages one rule and, under the
    rule's placeholder id, one row per condition and one per action. Logic
    updates and deletes stage nothing beyond the three logic tables' sections. */
module LogicIntents {
  import opened Wrappers
  import opened Values
  import opened Store
  import opened ChangeSets
  import opened Resolution
  import opened Seqs
  import I = IntentSchema

  /** The tables every logic intent makes sure exist, in the order it creates them. */
  const LogicTables: seq<Table> := [LogicRules, LogicConditions, LogicActions]

  /** The staged `logic_rules` row. */
  function RuleRow(ruleId: string, formId: string, intent: I.LogicIntent): (r: Row)
    ensures r.Keys == {"id", "form_id", "name", "trigger", "scope", "priority", "enabled"}
    ensures r["id"] == Str(ruleId) && r["form_id"] == Str(formId) && r["name"] == Str(intent.description)
    ensures r["trigger"] == Get(intent.payload.attributes, "trigger", Str("on_change"))
    ensures r["scope"] == Get(intent.payload.attributes, "scope", Str("form"))
    ensures r["priority"] == Get(intent.payload.attributes, "priority", Int(100))
    ensures r["enabled"] == Int(1)
  {
    var attrs := intent.payload.attributes;
    map["id" := Str(ruleId), "form_id" := Str(formId), "name" := Str(intent.description),
        "trigger" := Get(attrs, "trigger", Str("on_change")),
        "scope" := Get(attrs, "scope", Str("form")),
        "priority" := Get(attrs, "priority", Int(100)),
        "enabled" := Int(1)]
  }

  /** The staged `logic_conditions` row for one payload condition. */
  function ConditionRow(id: string, ruleId: string, cond: Row): (r: Row)
    ensures r.Keys == {"id", "rule_id", "group_id", "lhs_ref", "operator", "rhs", "bool_join", "position"}
    ensures r["id"] == Str(id) && r["rule_id"] == Str(ruleId) && r["group_id"] == Null
    ensures r["lhs_ref"] == Get(cond, "lhs_ref", Null) && r["operator"] == Get(cond, "operator", Str("="))
    ensures r["rhs"] == Get(cond, "rhs", Null) && r["bool_join"] == Get(cond, "bool_join", Str("AND"))
    ensures r["position"] == Get(cond, "position", Null)
  {
    map["id" := Str(id), "rule_id" := Str(ruleId), "group_id" := Null,
        "lhs_ref" := Get(cond, "lhs_ref", Null),
        "operator" := Get(cond, "operator", Str("=")),
        "rhs" := Get(cond, "rhs", Null),
        "bool_join" := Get(cond, "bool_join", Str("AND")),
        "position" := Get(cond, "position", Null)]
  }

  /** The staged `logic_actions` row for one payload action. */
  function ActionRow(id: string, ruleId: string, act: Row): (r: Row)
    ensures r.Keys == {"id", "rule_id", "action", "target_ref", "params", "position"}
    ensures r["id"] == Str(id) && r["rule_id"] == Str(ruleId)
    ensures r["action"] == Get(act, "action", Null) && r["target_ref"] == Get(act, "target_ref", Null)
    ensures r["params"] == Get(act, "params", Null) && r["position"] == Get(act, "position", Null)
  {
    map["id" := Str(id), "rule_id" := Str(ruleId),
        "action" := Get(act, "action", Null),
        "target_ref" := Get(act, "target_ref", Null),
        "params" := Get(act, "params", Null),
        "position" := Get(act, "position", Null)]
  }

  /** The condition rows in payload order; the `k`-th takes draw `next + k` of the supply. */
  function ConditionRows(conds: seq<Row>, ruleId: string, next: nat): (r: seq<Row>)
    ensures |r| == |conds|
    decreases |conds|
  {
    if |conds| == 0 then []
    else [ConditionRow(Placeholder("cond", next), ruleId, conds[0])] + ConditionRows(conds[1..], ruleId, next + 1)
  }

  /** The action rows in payload order; the `k`-th takes draw `next + k` of the supply. */
  function ActionRows(acts: seq<Row>, ruleId: string, next: nat): (r: seq<Row>)
    ensures |r| == |acts|
    decreases |acts|
  {
    if |acts| == 0 then []
    else [ActionRow(Placeholder("act", next), ruleId, acts[0])] + ActionRows(acts[1..], ruleId, next + 1)
  }

  /** The draw of the supply the first condition takes: right after the rule's. */
  function FirstConditionDraw(next: nat): nat {
    next + 1
  }

  /** The draw of the supply the first action takes: after the rule's and the conditions'. */
  function FirstActionDraw(intent: I.LogicIntent, next: nat): nat {
    FirstConditionDraw(next) + |intent.payload.conditions|
  }

  /** The number of rows a logic insert stages: the rule, its conditions and its actions. */
  function InsertSize(intent: I.LogicIntent): nat {
    1 + |intent.payload.conditions| + |intent.payload.actions|
  }

  /** A logic insert: makes sure the three logic tables exist, then stages the
      rule (draw `next`), its conditions and its actions, drawing placeholders
      in that order. */
  function InsertRule(intent: I.LogicIntent, formId: string, st: State): (r: State)
    ensures RowsOf(r.cs, LogicRules, Insert)
            == RowsOf(st.cs, LogicRules, Insert) + [RuleRow(Placeholder("rule", st.next), formId, intent)]
    ensures RowsOf(r.cs, LogicConditions, Insert)
            == RowsOf(st.cs, LogicConditions, Insert)
               + ConditionRows(intent.payload.conditions, Placeholder("rule", st.next), FirstConditionDraw(st.next))
    ensures RowsOf(r.cs, LogicActions, Insert)
            == RowsOf(st.cs, LogicActions, Insert)
               + ActionRows(intent.payload.actions, Placeholder("rule", st.next), FirstActionDraw(intent, st.next))
    ensures forall t, o :: (t !in LogicTables || o != Insert) ==> RowsOf(r.cs, t, o) == RowsOf(st.cs, t, o)
    ensures TotalRows(r.cs) == TotalRows(st.cs) + InsertSize(intent)
    ensures r.next == st.next + InsertSize(intent)
    ensures forall t :: t in LogicTables ==> Has(r.cs, t)
    ensures forall t :: Has(st.cs, t) ==> Has(r.cs, t)
    ensures UniqueTables(st.cs) ==> UniqueTables(r.cs)
  {
    var ruleId := Placeholder("rule", st.next);
    var conds := ConditionRows(intent.payload.conditions, ruleId, FirstConditionDraw(st.next));
    var acts := ActionRows(intent.payload.actions, ruleId, FirstActionDraw(intent, st.next));
    var cs0 := EnsureTables(st.cs, LogicTables);
    var cs1 := Push(cs0, LogicRules, Insert, RuleRow(ruleId, formId, intent));
    var cs2 := PushAll(cs1, LogicConditions, Insert, conds);
    var cs3 := PushAll(cs2, LogicActions, Insert, acts);
    assert RowsOf(cs3, LogicRules, Insert) == RowsOf(cs2, LogicRules, Insert) == RowsOf(cs1, LogicRules, Insert);
    assert RowsOf(cs3, LogicConditions, Insert) == RowsOf(cs2, LogicConditions, Insert);
    assert RowsOf(cs1, LogicConditions, Insert) == RowsOf(cs0, LogicConditions, Insert) == RowsOf(st.cs, LogicConditions, Insert);
    assert RowsOf(cs2, LogicActions, Insert) == RowsOf(cs1, LogicActions, Insert) == RowsOf(cs0, LogicActions, Insert);
    assert RowsOf(cs0, LogicActions, Insert) == RowsOf(st.cs, LogicActions, Insert);
    assert RowsOf(cs0, LogicRules, Insert) == RowsOf(st.cs, LogicRules, Insert);
    assert TotalRows(cs3) == TotalRows(st.cs) + 1 + |conds| + |acts|;
    forall t, o | t !in LogicTables || o != Insert ensures RowsOf(cs3, t, o) == RowsOf(st.cs, t, o) {
      assert RowsOf(cs0, t, o) == RowsOf(st.cs, t, o);
      assert t != LogicRules || o != Insert;
      assert t != LogicConditions || o != Insert;
      assert t != LogicActions || o != Insert;
    }
    State(cs3, st.next + InsertSize(intent))
  }

  /** What one logic intent stages on a resolved form: the three logic tables'
      sections, and for an insert the rule with its conditions and actions. */
  function StageLogic(intent: I.LogicIntent, formId: string, st: State): (r: State)
    ensures forall t :: t in LogicTables ==> Has(r.cs, t)
    ensures forall t, o :: (t !in LogicTables || o != Insert) ==> RowsOf(r.cs, t, o) == RowsOf(st.cs, t, o)
    ensures intent.operation.Insert? ==> r == InsertRule(intent, formId, st)
    ensures !intent.operation.Insert? ==>
      && (forall t, o :: RowsOf(r.cs, t, o) == RowsOf(st.cs, t, o))
      && TotalRows(r.cs) == TotalRows(st.cs) && r.next == st.next
    ensures st.next <= r.next && TotalRows(st.cs) <= TotalRows(r.cs)
    ensures UniqueTables(st.cs) ==> UniqueTables(r.cs)
  {
    if intent.operation.Insert? then InsertRule(intent, formId, st)
    else st.(cs := EnsureTables(st.cs, LogicTables))
  }

  /** `_apply_logic_intents` for one intent: resolve the form, then stage. */
  function ApplyLogicIntent(intent: I.LogicIntent, store: Snapshot, st: State, nf: NewFormIds): (r: Result<State, BuildError>)
    ensures ResolveFormId(store, intent.targetForm, nf).Err? ==> r == Err(ResolveFormId(store, intent.targetForm, nf).error)
    ensures ResolveFormId(store, intent.targetForm, nf).Ok? ==>
      r == Ok(StageLogic(intent, ResolveFormId(store, intent.targetForm, nf).value, st))
  {
    var formId :- ResolveFormId(store, intent.targetForm, nf);
    Ok(StageLogic(intent, formId, st))
  }

  /** The logic intents in order; the first failure aborts the build. */
  function ApplyLogicIntents(intents: seq<I.LogicIntent>, store: Snapshot, st: State, nf: NewFormIds): (r: Result<State, BuildError>)
    ensures r.Ok? ==> forall t, o :: t !in LogicTables ==> RowsOf(r.value.cs, t, o) == RowsOf(st.cs, t, o)
    ensures r.Ok? ==> TotalRows(st.cs) <= TotalRows(r.value.cs)
    ensures r.Ok? && |intents| > 0 ==> forall t :: t in LogicTables ==> Has(r.value.cs, t)
    ensures r.Ok? ==> st.next <= r.value.next && (UniqueTables(st.cs) ==> UniqueTables(r.value.cs))
    decreases |intents|
  {
    if |intents| == 0 then Ok(st)
    else
      var st1 :- ApplyLogicIntent(intents[0], store, st, nf);
      var r := ApplyLogicIntents(intents[1..], store, st1, nf);
      assert r.Ok? ==> forall t :: t in LogicTables ==> Has(r.value.cs, t) by {
        if r.Ok? && |intents| == 1 { assert r.value == st1; }
      }
      r
  }

  // ---------------------------------------------------------------------------
  // Properties

  /** A payload that omits `trigger`, `scope` or `priority` gets `on_change`,
      `form` or 100; the rule is always enabled and named by the description. */
  lemma RuleDefaults(ruleId: string, formId: string, intent: I.LogicIntent)
    ensures var rule := RuleRow(ruleId, formId, intent);
            var attrs := intent.payload.attributes;
            && ("trigger" !in attrs ==> rule["trigger"] == Str("on_change"))
            && ("scope" !in attrs ==> rule["scope"] == Str("form"))
            && ("priority" !in attrs ==> rule["priority"] == Int(100))
            && ("priority" in attrs ==> rule["priority"] == attrs["priority"])
            && rule["enabled"] == Int(1) && rule["name"] == Str(intent.description)
            && rule["id"] == Str(ruleId) && rule["form_id"] == Str(formId)
  {
  }

  /** Each staged condition row carries the rule's id as `rule_id`, a
      placeholder id of its own, and its payload entry's fields. */
  lemma {:induction false} ConditionsThreaded(conds: seq<Row>, ruleId: string, next: nat)
    ensures forall k :: 0 <= k < |conds| ==>
      var row := ConditionRows(conds, ruleId, next)[k];
      && Get(row, "rule_id", Null) == Str(ruleId) && Get(row, "id", Null) == Str(Placeholder("cond", next + k))
      && Get(row, "lhs_ref", Null) == Get(conds[k], "lhs_ref", Null)
      && Get(row, "operator", Null) == Get(conds[k], "operator", Str("="))
    decreases |conds|
  {
    if |conds| > 0 {
      var tail := ConditionRows(conds[1..], ruleId, next + 1);
      ConditionsThreaded(conds[1..], ruleId, next + 1);
      var r := ConditionRows(conds, ruleId, next);
      assert r == [ConditionRow(Placeholder("cond", next), ruleId, conds[0])] + tail;
      forall k | 0 < k < |conds| ensures r[k] == tail[k - 1] && conds[k] == conds[1..][k - 1] && next + k == next + 1 + (k - 1) {
      }
    }
  }

  /** Each staged action row carries the rule's id as `rule_id`, a
      placeholder id of its own, and its payload entry's fields. */
  lemma {:induction false} ActionsThreaded(acts: seq<Row>, ruleId: string, next: nat)
    ensures forall k :: 0 <= k < |acts| ==>
      var row := ActionRows(acts, ruleId, next)[k];
      && Get(row, "rule_id", Null) == Str(ruleId) && Get(row, "id", Null) == Str(Placeholder("act", next + k))
      && Get(row, "action", Null) == Get(acts[k], "action", Null)
      && Get(row, "target_ref", Null) == Get(acts[k], "target_ref", Null)
    decreases |acts|
  {
    if |acts| > 0 {
      var tail := ActionRows(acts[1..], ruleId, next + 1);
      ActionsThreaded(acts[1..], ruleId, next + 1);
      var r := ActionRows(acts, ruleId, next);
      assert r == [ActionRow(Placeholder("act", next), ruleId, acts[0])] + tail;
      forall k | 0 < k < |acts| ensures r[k] == tail[k - 1] && acts[k] == acts[1..][k - 1] && next + k == next + 1 + (k - 1) {
      }
    }
  }

  /** A condition or action row that points at rule `ruleId` and has a placeholder id. */
  predicate LinkedTo(row: Row, ruleId: string) {
    Get(row, "rule_id", Null) == Str(ruleId) && IsPlaceholder(TextAt(row, "id"))
  }

  lemma {:induction false} ConditionRowsLinked(conds: seq<Row>, ruleId: string, next: nat)
    ensures forall row :: row in ConditionRows(conds, ruleId, next) ==> LinkedTo(row, ruleId)
    decreases |conds|
  {
    if |conds| > 0 {
      ConditionRowsLinked(conds[1..], ruleId, next + 1);
    }
  }

  lemma {:induction false} ActionRowsLinked(acts: seq<Row>, ruleId: string, next: nat)
    ensures forall row :: row in ActionRows(acts, ruleId, next) ==> LinkedTo(row, ruleId)
    decreases |acts|
  {
    if |acts| > 0 {
      ActionRowsLinked(acts[1..], ruleId, next + 1);
    }
  }

  /** The rule row a logic insert adds has a placeholder id. */
  lemma RuleIdThreaded(intent: I.LogicIntent, formId: string, st: State)
    ensures var r := InsertRule(intent, formId, st);
            var ruleId := Placeholder("rule", st.next);
            && IsPlaceholder(ruleId)
            && RuleRow(ruleId, formId, intent) in RowsOf(r.cs, LogicRules, Insert)
  {
    InLast(RowsOf(st.cs, LogicRules, Insert), RuleRow(Placeholder("rule", st.next), formId, intent));
  }

  /** Every condition row a logic insert adds points at the new rule. */
  lemma ConditionsLinked(intent: I.LogicIntent, formId: string, st: State)
    ensures var r := InsertRule(intent, formId, st);
            forall row :: row in RowsOf(r.cs, LogicConditions, Insert) ==>
              row in RowsOf(st.cs, LogicConditions, Insert) || LinkedTo(row, Placeholder("rule", st.next))
  {
    ConditionRowsLinked(intent.payload.conditions, Placeholder("rule", st.next), FirstConditionDraw(st.next));
  }

  /** Every action row a logic insert adds points at the new rule. */
  lemma ActionsLinked(intent: I.LogicIntent, formId: string, st: State)
    ensures var r := InsertRule(intent, formId, st);
            forall row :: row in RowsOf(r.cs, LogicActions, Insert) ==>
              row in RowsOf(st.cs, LogicActions, Insert) || LinkedTo(row, Placeholder("rule", st.next))
  {
    ActionRowsLinked(intent.payload.actions, Placeholder("rule", st.next), FirstActionDraw(intent, st.next));
  }

  /** The conditions of one rule get pairwise distinct ids. */
  lemma ConditionIdsDistinct(conds: seq<Row>, ruleId: string, next: nat, j: nat, k: nat)
    requires j < k < |conds|
    ensures Get(ConditionRows(conds, ruleId, next)[j], "id", Null) != Get(ConditionRows(conds, ruleId, next)[k], "id", Null)
  {
    ConditionsThreaded(conds, ruleId, next);
    if Placeholder("cond", next + j) == Placeholder("cond", next + k) {
      PlaceholderInjective("cond", next + j, next + k);
    }
  }

}

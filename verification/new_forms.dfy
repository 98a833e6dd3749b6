/** `_create_new_forms`: every distinct form key the plan names that has no
    `form_id` and matches no stored form gets a draft form and its first page,
    under placeholder ids, and the key is mapped to the form's placeholder for the
    intent handlers that follow. */
module NewForms {
  import opened Wrappers
  import opened Values
  import opened Text
  import opened Seqs
  import opened Store
  import opened ChangeSets
  import opened Resolution
  import I = IntentSchema

  /** The target forms of every intent, fields first, then options, then logic blocks. */
  function Targets(plan: I.IntentPlan): seq<I.TargetForm> {
    seq(|plan.fields|, i requires 0 <= i < |plan.fields| => plan.fields[i].targetForm)
    + seq(|plan.options|, i requires 0 <= i < |plan.options| => plan.options[i].targetForm)
    + seq(|plan.logicBlocks|, i requires 0 <= i < |plan.logicBlocks| => plan.logicBlocks[i].targetForm)
  }

  predicate Listed(forms: seq<(string, I.TargetForm)>, key: string) {
    exists i :: 0 <= i < |forms| && forms[i].0 == key
  }

  /** Each distinct present form key with the first target that carries it, in order. */
  function UniqueForms(targets: seq<I.TargetForm>): (r: seq<(string, I.TargetForm)>)
    ensures forall i, j :: 0 <= i < j < |r| ==> r[i].0 != r[j].0
    ensures forall i :: 0 <= i < |r| ==> FormKey(r[i].1) == Some(r[i].0) && r[i].0 != ""
    ensures forall k :: Listed(r, k) <==> exists t :: t in targets && FormKey(t) == Some(k) && k != ""
    decreases |targets|
  {
    if |targets| == 0 then []
    else
      var before := targets[..|targets| - 1];
      var u := UniqueForms(before);
      var t := targets[|targets| - 1];
      var key := FormKey(t);
      assert forall x :: x in targets <==> x in before || x == t;
      if Present(key) && !Listed(u, key.value) then
        var r := u + [(key.value, t)];
        assert forall k :: Listed(r, k) <==> Listed(u, k) || k == key.value by {
          forall k | Listed(r, k) ensures Listed(u, k) || k == key.value {
            var i :| 0 <= i < |r| && r[i].0 == k;
            if i < |u| { assert u[i].0 == k; }
          }
          forall k | Listed(u, k) ensures Listed(r, k) {
            var i :| 0 <= i < |u| && u[i].0 == k;
            assert r[i].0 == k;
          }
          assert r[|u|].0 == key.value;
        }
        r
      else u
  }

  /** A key is staged as a new form when its target has no `form_id`, has a
      name or code, and no stored form matches that name or code. */
  predicate NeedsNewForm(store: Snapshot, t: I.TargetForm) {
    !Present(t.formId) && Present(NameOrCode(t)) && |FindFormsByName(store, NameOrCode(t).value)| == 0
  }

  /** The `forms` row staged for a new form: a draft whose slug is the lower-cased
      name with spaces as hyphens, titled by the name, or by the title-cased code. */
  function NewFormRow(formId: string, t: I.TargetForm): (r: Row)
    requires Present(NameOrCode(t))
    ensures r.Keys == {"id", "slug", "title", "description", "status"}
    ensures r["id"] == Str(formId) && r["status"] == Str("draft")
    ensures Present(t.formName) ==> r["title"] == Str(t.formName.value)
  {
    var name := NameOrCode(t).value;
    var title := if Present(t.formName) then name else Title(ReplaceChar(name, '-', ' '));
    map["id" := Str(formId),
        "slug" := Str(ReplaceChar(Lower(name), ' ', '-')),
        "title" := Str(title),
        "description" := Str("Form for " + Lower(title)),
        "status" := Str("draft")]
  }

  /** The single `form_pages` row staged with a new form. */
  function NewPageRow(pageId: string, formId: string): (r: Row)
    ensures r.Keys == {"id", "form_id", "page_number", "title"}
    ensures r["id"] == Str(pageId) && r["form_id"] == Str(formId) && r["page_number"] == Int(1)
  {
    map["id" := Str(pageId), "form_id" := Str(formId), "page_number" := Int(1), "title" := Str("Page 1")]
  }

  /** The keys that get a new form, in order. */
  function NewKeys(forms: seq<(string, I.TargetForm)>, store: Snapshot): (r: seq<(string, I.TargetForm)>)
    ensures forall p :: p in r <==> p in forms && NeedsNewForm(store, p.1)
    ensures forall i :: 0 <= i < |r| ==> NeedsNewForm(store, r[i].1)
  {
    Filter(forms, (p: (string, I.TargetForm)) => NeedsNewForm(store, p.1))
  }

  lemma NewKeysCons(forms: seq<(string, I.TargetForm)>, store: Snapshot)
    requires |forms| > 0
    ensures NeedsNewForm(store, forms[0].1) ==> NewKeys(forms, store) == [forms[0]] + NewKeys(forms[1..], store)
    ensures !NeedsNewForm(store, forms[0].1) ==> NewKeys(forms, store) == NewKeys(forms[1..], store)
  {
  }

  /** The form row and page row staged for a key from draw `n` of the supply:
      the form takes draw `n`, its page draw `n + 1` and points at the form. */
  predicate StagedPair(form: Row, page: Row, t: I.TargetForm, n: nat) {
    && Present(NameOrCode(t))
    && form == NewFormRow(Placeholder("form", n), t)
    && page == NewPageRow(Placeholder("page", n + 1), Placeholder("form", n))
  }

  /** `forms` and `pages` are the rows staged for `keys`, in order, the `k`-th
      key's pair starting at draw `next + 2k`. */
  predicate FormsStaged(forms: seq<Row>, pages: seq<Row>, keys: seq<(string, I.TargetForm)>, next: nat) {
    && |forms| == |keys| && |pages| == |keys|
    && forall k :: 0 <= k < |keys| ==> StagedPair(forms[k], pages[k], keys[k].1, next + 2 * k)
  }

  lemma FormsStagedCons(forms: seq<Row>, pages: seq<Row>, key: (string, I.TargetForm), rest: seq<(string, I.TargetForm)>, next: nat)
    requires |forms| > 0 && |pages| > 0
    requires StagedPair(forms[0], pages[0], key.1, next)
    requires FormsStaged(forms[1..], pages[1..], rest, next + 2)
    ensures FormsStaged(forms, pages, [key] + rest, next)
  {
    var keys := [key] + rest;
    forall k | 0 <= k < |keys| ensures StagedPair(forms[k], pages[k], keys[k].1, next + 2 * k) {
      if k > 0 {
        assert StagedPair(forms[1..][k - 1], pages[1..][k - 1], rest[k - 1].1, next + 2 + 2 * (k - 1));
        assert forms[k] == forms[1..][k - 1] && pages[k] == pages[1..][k - 1] && keys[k] == rest[k - 1];
        assert next + 2 + 2 * (k - 1) == next + 2 * k;
      }
    }
  }

  lemma FormsStagedStep(
    beforeF: seq<Row>, midF: seq<Row>, afterF: seq<Row>, beforeP: seq<Row>, midP: seq<Row>, afterP: seq<Row>,
    key: (string, I.TargetForm), rest: seq<(string, I.TargetForm)>, next: nat)
    requires Present(NameOrCode(key.1))
    requires midF == beforeF + [NewFormRow(Placeholder("form", next), key.1)] && midF <= afterF
    requires midP == beforeP + [NewPageRow(Placeholder("page", next + 1), Placeholder("form", next))] && midP <= afterP
    requires FormsStaged(afterF[|midF|..], afterP[|midP|..], rest, next + 2)
    ensures beforeF <= afterF && beforeP <= afterP
    ensures FormsStaged(afterF[|beforeF|..], afterP[|beforeP|..], [key] + rest, next)
  {
    AppendedSuffix(beforeF, midF, afterF, NewFormRow(Placeholder("form", next), key.1));
    AppendedSuffix(beforeP, midP, afterP, NewPageRow(Placeholder("page", next + 1), Placeholder("form", next)));
    var f := afterF[|beforeF|..];
    var p := afterP[|beforeP|..];
    assert f[1..] == afterF[|midF|..] && p[1..] == afterP[|midP|..];
    FormsStagedCons(f, p, key, rest, next);
  }

  /** One form key: a draft form and its page when the key needs a new form, nothing otherwise. */
  function CreateForm(key: string, t: I.TargetForm, store: Snapshot, st: State, nf: NewFormIds): (r: (State, NewFormIds))
    ensures !NeedsNewForm(store, t) ==> r == (st, nf)
    ensures NeedsNewForm(store, t) ==>
      && RowsOf(r.0.cs, Forms, Insert) == RowsOf(st.cs, Forms, Insert) + [NewFormRow(Placeholder("form", st.next), t)]
      && RowsOf(r.0.cs, FormPages, Insert)
         == RowsOf(st.cs, FormPages, Insert) + [NewPageRow(Placeholder("page", st.next + 1), Placeholder("form", st.next))]
      && r.0.next == st.next + 2 && TotalRows(r.0.cs) == TotalRows(st.cs) + 2
      && r.1 == nf[key := Placeholder("form", st.next)]
    ensures forall t, o :: (o != Insert || (t != Forms && t != FormPages)) ==> RowsOf(r.0.cs, t, o) == RowsOf(st.cs, t, o)
    ensures UniqueTables(st.cs) ==> UniqueTables(r.0.cs)
  {
    if !NeedsNewForm(store, t) then (st, nf)
    else
      var formId := Placeholder("form", st.next);
      var pageId := Placeholder("page", st.next + 1);
      var cs1 := Push(st.cs, Forms, Insert, NewFormRow(formId, t));
      (State(Push(cs1, FormPages, Insert, NewPageRow(pageId, formId)), st.next + 2), nf[key := formId])
  }

  /** The form keys in order. */
  function CreateForms(forms: seq<(string, I.TargetForm)>, store: Snapshot, st: State, nf: NewFormIds): (r: (State, NewFormIds))
    ensures forall t, o :: (o != Insert || (t != Forms && t != FormPages)) ==> RowsOf(r.0.cs, t, o) == RowsOf(st.cs, t, o)
    ensures r.0.next == st.next + 2 * |NewKeys(forms, store)|
    ensures TotalRows(r.0.cs) == TotalRows(st.cs) + 2 * |NewKeys(forms, store)|
    ensures UniqueTables(st.cs) ==> UniqueTables(r.0.cs)
    decreases |forms|
  {
    if |forms| == 0 then (st, nf)
    else
      var s1 := CreateForm(forms[0].0, forms[0].1, store, st, nf);
      NewKeysCons(forms, store);
      CreateForms(forms[1..], store, s1.0, s1.1)
  }

  /** The `forms` and `form_pages` inserts `CreateForms` adds are exactly the rows
      for the keys that need a new form, in order, each page pointing at its form. */
  lemma {:induction false} CreateFormsStaged(forms: seq<(string, I.TargetForm)>, store: Snapshot, st: State, nf: NewFormIds)
    ensures var r := CreateForms(forms, store, st, nf);
            var bf := RowsOf(st.cs, Forms, Insert);
            var af := RowsOf(r.0.cs, Forms, Insert);
            var bp := RowsOf(st.cs, FormPages, Insert);
            var ap := RowsOf(r.0.cs, FormPages, Insert);
            && bf <= af && bp <= ap
            && FormsStaged(af[|bf|..], ap[|bp|..], NewKeys(forms, store), st.next)
    decreases |forms|
  {
    if |forms| > 0 {
      var s1 := CreateForm(forms[0].0, forms[0].1, store, st, nf);
      var r := CreateForms(forms[1..], store, s1.0, s1.1);
      CreateFormsStaged(forms[1..], store, s1.0, s1.1);
      NewKeysCons(forms, store);
      if NeedsNewForm(store, forms[0].1) {
        FormsStagedStep(RowsOf(st.cs, Forms, Insert), RowsOf(s1.0.cs, Forms, Insert), RowsOf(r.0.cs, Forms, Insert),
                        RowsOf(st.cs, FormPages, Insert), RowsOf(s1.0.cs, FormPages, Insert), RowsOf(r.0.cs, FormPages, Insert),
                        forms[0], NewKeys(forms[1..], store), st.next);
      }
    }
  }

  /** `_create_new_forms`: the distinct form keys of every intent, fields first. */
  function CreateNewForms(plan: I.IntentPlan, store: Snapshot, st: State): (State, NewFormIds) {
    CreateForms(UniqueForms(Targets(plan)), store, st, map[])
  }

  /** Keys are distinct in a list of keyed targets. */
  predicate DistinctKeys(forms: seq<(string, I.TargetForm)>) {
    forall i, j :: 0 <= i < j < |forms| ==> forms[i].0 != forms[j].0
  }

  /** A key of a sub-list is a key of the list. */
  lemma ListedNewKey(forms: seq<(string, I.TargetForm)>, store: Snapshot, key: string)
    requires Listed(NewKeys(forms, store), key)
    ensures Listed(forms, key)
  {
    var news := NewKeys(forms, store);
    var i :| 0 <= i < |news| && news[i].0 == key;
    assert news[i] in news;
    var j :| 0 <= j < |forms| && forms[j] == news[i];
  }

  lemma DistinctTail(forms: seq<(string, I.TargetForm)>)
    requires |forms| > 0 && DistinctKeys(forms)
    ensures DistinctKeys(forms[1..]) && !Listed(forms[1..], forms[0].0)
  {
    var tail := forms[1..];
    forall i, j | 0 <= i < j < |tail| ensures tail[i].0 != tail[j].0 {
      assert tail[i] == forms[i + 1] && tail[j] == forms[j + 1];
    }
    forall j | 0 <= j < |tail| ensures tail[j].0 != forms[0].0 {
      assert tail[j] == forms[j + 1];
    }
  }

  lemma DistinctCons(head: (string, I.TargetForm), rest: seq<(string, I.TargetForm)>)
    requires DistinctKeys(rest) && !Listed(rest, head.0)
    ensures DistinctKeys([head] + rest)
  {
    var s := [head] + rest;
    forall i, j | 0 <= i < j < |s| ensures s[i].0 != s[j].0 {
      assert s[j] == rest[j - 1];
      if i > 0 { assert s[i] == rest[i - 1]; }
    }
  }

  /** The keys that get a new form are distinct when the form keys are. */
  lemma {:induction false} DistinctNewKeys(forms: seq<(string, I.TargetForm)>, store: Snapshot)
    requires DistinctKeys(forms)
    ensures DistinctKeys(NewKeys(forms, store))
    decreases |forms|
  {
    if |forms| > 0 {
      DistinctTail(forms);
      DistinctNewKeys(forms[1..], store);
      NewKeysCons(forms, store);
      if NeedsNewForm(store, forms[0].1) {
        if Listed(NewKeys(forms[1..], store), forms[0].0) {
          ListedNewKey(forms[1..], store, forms[0].0);
        }
        DistinctCons(forms[0], NewKeys(forms[1..], store));
      }
    }
  }

  lemma ListedCons(news: seq<(string, I.TargetForm)>, head: (string, I.TargetForm), rest: seq<(string, I.TargetForm)>)
    requires news == [head] + rest
    ensures forall k :: Listed(news, k) <==> k == head.0 || Listed(rest, k)
  {
    forall k ensures Listed(news, k) <==> k == head.0 || Listed(rest, k) {
      if Listed(news, k) && k != head.0 {
        var i :| 0 <= i < |news| && news[i].0 == k;
        assert rest[i - 1].0 == k;
      }
      if Listed(rest, k) {
        var i :| 0 <= i < |rest| && rest[i].0 == k;
        assert news[i + 1].0 == k;
      }
      if k == head.0 { assert news[0].0 == head.0; }
    }
  }

  /** The key-to-placeholder map after staging `keys` from draw `next` on. */
  function IdsFor(keys: seq<(string, I.TargetForm)>, next: nat, nf: NewFormIds): NewFormIds
    decreases |keys|
  {
    if |keys| == 0 then nf
    else IdsFor(keys[1..], next + 2, nf[keys[0].0 := Placeholder("form", next)])
  }

  /** The map `CreateForms` returns is the one the keys needing a form give. */
  lemma {:induction false} CreateFormsIds(forms: seq<(string, I.TargetForm)>, store: Snapshot, st: State, nf: NewFormIds)
    ensures CreateForms(forms, store, st, nf).1 == IdsFor(NewKeys(forms, store), st.next, nf)
    decreases |forms|
  {
    if |forms| > 0 {
      var s1 := CreateForm(forms[0].0, forms[0].1, store, st, nf);
      CreateFormsIds(forms[1..], store, s1.0, s1.1);
      NewKeysCons(forms, store);
      if NeedsNewForm(store, forms[0].1) {
        var rest := NewKeys(forms[1..], store);
        assert ([forms[0]] + rest)[1..] == rest;
      }
    }
  }

  /** The keys of the map after staging are the earlier keys and the staged ones. */
  lemma {:induction false} IdsForDomain(keys: seq<(string, I.TargetForm)>, next: nat, nf: NewFormIds)
    ensures forall k :: k in IdsFor(keys, next, nf) <==> k in nf || Listed(keys, k)
    decreases |keys|
  {
    if |keys| > 0 {
      IdsForDomain(keys[1..], next + 2, nf[keys[0].0 := Placeholder("form", next)]);
      ListedCons(keys, keys[0], keys[1..]);
    }
  }

  /** A key that is not staged keeps its entry. */
  lemma {:induction false} IdsForKeeps(keys: seq<(string, I.TargetForm)>, next: nat, nf: NewFormIds, k: string)
    requires k in nf && !Listed(keys, k)
    ensures k in IdsFor(keys, next, nf) && IdsFor(keys, next, nf)[k] == nf[k]
    decreases |keys|
  {
    if |keys| > 0 {
      ListedCons(keys, keys[0], keys[1..]);
      IdsForKeeps(keys[1..], next + 2, nf[keys[0].0 := Placeholder("form", next)], k);
    }
  }

  /** With distinct keys, the `i`-th key is sent to draw `next + 2i`. */
  lemma {:induction false} IdsForDraw(keys: seq<(string, I.TargetForm)>, next: nat, nf: NewFormIds, i: nat)
    requires DistinctKeys(keys) && i < |keys|
    ensures keys[i].0 in IdsFor(keys, next, nf) && IdsFor(keys, next, nf)[keys[i].0] == Placeholder("form", next + 2 * i)
    decreases |keys|
  {
    var nf1 := nf[keys[0].0 := Placeholder("form", next)];
    DistinctTail(keys);
    if i == 0 {
      IdsForKeeps(keys[1..], next + 2, nf1, keys[0].0);
    } else {
      assert keys[i] == keys[1..][i - 1];
      IdsForDraw(keys[1..], next + 2, nf1, i - 1);
    }
  }

  /** The map `CreateForms` returns sends the `i`-th key needing a form to that
      form's placeholder, draw `next + 2i`, and leaves every other key as it was. */
  lemma CreatedIds(forms: seq<(string, I.TargetForm)>, store: Snapshot, st: State, nf: NewFormIds)
    requires DistinctKeys(forms)
    ensures var r := CreateForms(forms, store, st, nf);
            var news := NewKeys(forms, store);
            && (forall k :: k in r.1 <==> k in nf || Listed(news, k))
            && (forall k :: k in nf && !Listed(news, k) ==> r.1[k] == nf[k])
            && (forall i :: 0 <= i < |news| ==> news[i].0 in r.1 && r.1[news[i].0] == Placeholder("form", st.next + 2 * i))
  {
    var news := NewKeys(forms, store);
    CreateFormsIds(forms, store, st, nf);
    DistinctNewKeys(forms, store);
    IdsForDomain(news, st.next, nf);
    forall k | k in nf && !Listed(news, k) ensures IdsFor(news, st.next, nf)[k] == nf[k] {
      IdsForKeeps(news, st.next, nf, k);
    }
    forall i | 0 <= i < |news| ensures news[i].0 in IdsFor(news, st.next, nf) && IdsFor(news, st.next, nf)[news[i].0] == Placeholder("form", st.next + 2 * i) {
      IdsForDraw(news, st.next, nf, i);
    }
  }
}

/** The relational store as an immutable snapshot, with the read-only lookups
    the resolver issues against it. Each table is listed in the order an
    unordered `SELECT` returns its rows; lookups with `ORDER BY` sort explicitly.
    Name and code lookups use SQL `LIKE '%text%'`, modelled by a matcher with
    SQLite's semantics: `%` matches any run, `_` any one character, and letters
    compare ASCII-case-insensitively. */
module Store {
  import opened Wrappers
  import opened Text
  import opened Seqs
  import opened Sorting

  datatype Form = Form(id: string, slug: string, title: string)
  datatype Page = Page(id: string, formId: string, position: int)
  datatype Field = Field(id: string, formId: string, pageId: string, code: string, labelText: string, position: int)
  datatype FieldType = FieldType(id: string, key: string)
  datatype OptionSet = OptionSet(id: string, formId: string, name: string)
  /** A `field_option_binding` row: the option set a field draws its values from. */
  datatype Binding = Binding(fieldId: string, optionSetId: string)
  datatype OptionItem = OptionItem(id: string, optionSetId: string, value: string, labelText: string, position: int, isActive: bool)

  datatype Snapshot = Snapshot(
    forms: seq<Form>,
    pages: seq<Page>,
    fields: seq<Field>,
    fieldTypes: seq<FieldType>,
    optionSets: seq<OptionSet>,
    bindings: seq<Binding>,
    optionItems: seq<OptionItem>)

  // ---------------------------------------------------------------------------
  // SQL LIKE

  function LikeMatch(s: string, pattern: string): bool
    decreases |s| + |pattern|
  {
    if |pattern| == 0 then |s| == 0
    else if pattern[0] == '%' then
      LikeMatch(s, pattern[1..]) || (|s| > 0 && LikeMatch(s[1..], pattern))
    else
      |s| > 0 && (pattern[0] == '_' || LowerChar(s[0]) == LowerChar(pattern[0]))
      && LikeMatch(s[1..], pattern[1..])
  }

  /** `s LIKE '%needle%'`. */
  predicate LikeContains(s: string, needle: string) {
    LikeMatch(s, "%" + needle + "%")
  }

  predicate NoWildcards(p: string) {
    forall i :: 0 <= i < |p| ==> p[i] != '%' && p[i] != '_'
  }

  /** `p` is a prefix of `s` up to ASCII case. */
  predicate CasePrefix(p: string, s: string) {
    |p| <= |s| && forall i :: 0 <= i < |p| ==> LowerChar(s[i]) == LowerChar(p[i])
  }

  lemma {:induction false} TrailingPercent(s: string)
    ensures LikeMatch(s, "%")
    decreases |s|
  {
    if |s| > 0 {
      TrailingPercent(s[1..]);
    }
  }

  lemma {:induction false} PrefixPattern(s: string, p: string)
    requires NoWildcards(p)
    ensures LikeMatch(s, p + "%") <==> CasePrefix(p, s)
    decreases |p|
  {
    if |p| == 0 {
      assert p + "%" == "%";
      TrailingPercent(s);
    } else {
      assert (p + "%")[1..] == p[1..] + "%";
      PrefixPattern(if |s| > 0 then s[1..] else s, p[1..]);
      if |s| > 0 && CasePrefix(p[1..], s[1..]) && LowerChar(s[0]) == LowerChar(p[0]) {
        assert CasePrefix(p, s);
      }
    }
  }

  lemma {:induction false} LeadingPercent(s: string, q: string)
    ensures LikeMatch(s, "%" + q) <==> exists i :: 0 <= i <= |s| && LikeMatch(s[i..], q)
    decreases |s|
  {
    assert ("%" + q)[1..] == q;
    assert s[0..] == s;
    if |s| > 0 {
      LeadingPercent(s[1..], q);
      if exists i :: 0 <= i <= |s| && LikeMatch(s[i..], q) {
        var i :| 0 <= i <= |s| && LikeMatch(s[i..], q);
        if i > 0 { assert s[1..][i - 1..] == s[i..]; }
      }
      if LikeMatch(s[1..], "%" + q) {
        var i :| 0 <= i <= |s[1..]| && LikeMatch(s[1..][i..], q);
        assert s[1..][i..] == s[i + 1..];
      }
    }
  }

  /** Without wildcards in the searched text, `LIKE '%text%'` is a
      case-insensitive substring test. */
  lemma LikeIsCaseInsensitiveSubstring(s: string, needle: string)
    requires NoWildcards(needle)
    ensures LikeContains(s, needle) <==> Contains(Lower(s), Lower(needle))
  {
    assert "%" + needle + "%" == "%" + (needle + "%");
    LeadingPercent(s, needle + "%");
    ContainsAt(Lower(s), Lower(needle));
    forall i | 0 <= i <= |s|
      ensures LikeMatch(s[i..], needle + "%") <==> OccursAt(Lower(s), Lower(needle), i)
    {
      PrefixPattern(s[i..], needle);
      if CasePrefix(needle, s[i..]) {
        assert Lower(s)[i..i + |needle|] == Lower(needle);
      }
      if OccursAt(Lower(s), Lower(needle), i) {
        forall k | 0 <= k < |needle| ensures LowerChar(s[i..][k]) == LowerChar(needle[k]) {
          assert Lower(s)[i..i + |needle|][k] == Lower(needle)[k];
        }
      }
    }
  }

  // ---------------------------------------------------------------------------
  // Lookups

  predicate FormMatches(f: Form, nameOrCode: string) {
    LikeContains(f.title, nameOrCode) || LikeContains(f.slug, nameOrCode)
  }

  /** Forms whose title or slug contains the text (`find_form_by_name`). */
  function FindFormsByName(store: Snapshot, nameOrCode: string): (r: seq<Form>)
    ensures forall f :: f in r <==> f in store.forms && FormMatches(f, nameOrCode)
  {
    Filter(store.forms, (f: Form) => FormMatches(f, nameOrCode))
  }

  /** Every form, ordered by title. */
  function FormsByTitle(store: Snapshot): (r: seq<Form>)
    ensures multiset(r) == multiset(store.forms)
    ensures SortedBy(r, (f: Form) => Codes(f.title))
  {
    SortBy(store.forms, (f: Form) => Codes(f.title))
  }

  /** Fields of a form whose code equals the text exactly (`code = ?`). */
  function FieldsWithCode(store: Snapshot, formId: string, code: string): (r: seq<Field>)
    ensures forall f :: f in r <==> f in store.fields && f.formId == formId && f.code == code
  {
    Filter(store.fields, (f: Field) => f.formId == formId && f.code == code)
  }

  /** Fields of a form whose code contains the text (`code LIKE ?`). */
  function FieldsLikeCode(store: Snapshot, formId: string, code: string): (r: seq<Field>)
    ensures forall f :: f in r <==> f in store.fields && f.formId == formId && LikeContains(f.code, code)
  {
    Filter(store.fields, (f: Field) => f.formId == formId && LikeContains(f.code, code))
  }

  /** Fields of a form whose label or code contains the text (`find_field_by_label`). */
  function FindFieldsByLabel(store: Snapshot, formId: string, text: string): (r: seq<Field>)
    ensures forall f :: f in r <==>
      f in store.fields && f.formId == formId && (LikeContains(f.labelText, text) || LikeContains(f.code, text))
  {
    Filter(store.fields, (f: Field) => f.formId == formId && (LikeContains(f.labelText, text) || LikeContains(f.code, text)))
  }

  /** The ordering key of fields. */
  function FieldPosition(f: Field): seq<int> {
    [f.position]
  }

  /** Fields of a form, ordered by position: each of the form's fields as often
      as the table lists it, and nothing else. */
  function FieldsOfForm(store: Snapshot, formId: string): (r: seq<Field>)
    ensures multiset(r) == multiset(Filter(store.fields, (f: Field) => f.formId == formId))
    ensures forall f :: f in r <==> f in store.fields && f.formId == formId
    ensures SortedBy(r, FieldPosition)
  {
    var mine := Filter(store.fields, (f: Field) => f.formId == formId);
    var r := SortBy(mine, FieldPosition);
    assert forall f :: f in r <==> f in multiset(mine);
    r
  }

  /** Pages of a form, ordered by position (`get_pages_for_form`). */
  function PagesForForm(store: Snapshot, formId: string): (r: seq<Page>)
    ensures forall p :: p in r <==> p in store.pages && p.formId == formId
    ensures SortedBy(r, PagePosition)
  {
    var mine := Filter(store.pages, (p: Page) => p.formId == formId);
    var r := SortBy(mine, PagePosition);
    assert forall p :: p in r <==> p in multiset(mine);
    r
  }

  /** The last of a form's pages in position order (`pages[-1]`), if it has any:
      a page of the form at the highest position. */
  function LastPage(store: Snapshot, formId: string): (r: Option<Page>)
    ensures r.None? <==> forall p :: p in store.pages ==> p.formId != formId
    ensures r.Some? ==> r.value in store.pages && r.value.formId == formId
    ensures r.Some? ==> forall q :: q in store.pages && q.formId == formId ==> q.position <= r.value.position
  {
    var pages := PagesForForm(store, formId);
    if |pages| == 0 then None
    else
      LastIsHighest(pages);
      Some(pages[|pages| - 1])
  }

  /** The ordering key of pages. */
  function PagePosition(p: Page): seq<int> {
    [p.position]
  }

  /** The last page of a list sorted by position has the highest position. */
  lemma LastIsHighest(pages: seq<Page>)
    requires |pages| > 0 && SortedBy(pages, PagePosition)
    ensures pages[|pages| - 1] in pages
    ensures forall q :: q in pages ==> q.position <= pages[|pages| - 1].position
  {
    var last := pages[|pages| - 1];
    forall q | q in pages ensures q.position <= last.position {
      var i :| 0 <= i < |pages| && pages[i] == q;
      if i < |pages| - 1 {
        assert LexLe(PagePosition(q), PagePosition(last));
        LexLeSingle(q.position, last.position);
      }
    }
  }

  /** The largest position among the fields on one page of a form, if any. */
  function MaxPositionOnPage(store: Snapshot, formId: string, pageId: string): (r: Option<int>)
    ensures r.None? <==> forall f :: f in store.fields ==> !(f.formId == formId && f.pageId == pageId)
    ensures r.Some? ==> forall f :: f in store.fields && f.formId == formId && f.pageId == pageId ==> f.position <= r.value
    ensures r.Some? ==> exists f :: f in store.fields && f.formId == formId && f.pageId == pageId && f.position == r.value
  {
    var onPage := Filter(store.fields, (f: Field) => f.formId == formId && f.pageId == pageId);
    if |onPage| == 0 then None
    else
      var positions := seq(|onPage|, i requires 0 <= i < |onPage| => onPage[i].position);
      var m := MaxOr(positions, 0);
      assert forall f :: f in onPage ==> f.position <= m by {
        forall f | f in onPage ensures f.position <= m {
          var i :| 0 <= i < |onPage| && onPage[i] == f;
          assert positions[i] == f.position;
        }
      }
      var i :| 0 <= i < |positions| && positions[i] == m;
      assert onPage[i] in onPage;
      Some(m)
  }

  /** The field type registered under a key (`get_field_type_by_key`). */
  function FieldTypeByKey(store: Snapshot, key: string): (r: Option<FieldType>)
    ensures r.Some? ==> r.value in store.fieldTypes && r.value.key == key
    ensures r.None? ==> forall t :: t in store.fieldTypes ==> t.key != key
  {
    var hits := Filter(store.fieldTypes, (t: FieldType) => t.key == key);
    if |hits| == 0 then None else Some(hits[0])
  }

  predicate BoundTo(store: Snapshot, fieldId: string, optionSetId: string) {
    exists b :: b in store.bindings && b.fieldId == fieldId && b.optionSetId == optionSetId
  }

  /** The option set bound to a field, if any (`get_option_set_for_field`). */
  function OptionSetForField(store: Snapshot, fieldId: string): (r: Option<OptionSet>)
    ensures r.Some? ==> r.value in store.optionSets && BoundTo(store, fieldId, r.value.id)
    ensures r.None? ==> forall s :: s in store.optionSets ==> !BoundTo(store, fieldId, s.id)
  {
    var bound := Filter(store.optionSets, (s: OptionSet) => BoundTo(store, fieldId, s.id));
    if |bound| == 0 then None else Some(bound[0])
  }

  /** The ordering key of option items. */
  function ItemPosition(it: OptionItem): seq<int> {
    [it.position]
  }

  /** The items of every option set bound to a field, ordered by position
      (`get_option_items_for_field`): each such item as often as the table
      lists it, and nothing else. */
  function OptionItemsForField(store: Snapshot, fieldId: string): (r: seq<OptionItem>)
    ensures multiset(r) == multiset(Filter(store.optionItems, (it: OptionItem) => BoundTo(store, fieldId, it.optionSetId)))
    ensures forall it :: it in r <==> it in store.optionItems && BoundTo(store, fieldId, it.optionSetId)
    ensures SortedBy(r, ItemPosition)
  {
    var mine := Filter(store.optionItems, (it: OptionItem) => BoundTo(store, fieldId, it.optionSetId));
    var r := SortBy(mine, ItemPosition);
    assert forall it :: it in r <==> it in multiset(mine);
    r
  }

  /** In position order, an item never comes after one at a lower position. */
  lemma ItemsInPositionOrder(store: Snapshot, fieldId: string, i: nat, j: nat)
    requires i < j < |OptionItemsForField(store, fieldId)|
    ensures OptionItemsForField(store, fieldId)[i].position <= OptionItemsForField(store, fieldId)[j].position
  {
    var items := OptionItemsForField(store, fieldId);
    LexLeSingle(items[i].position, items[j].position);
  }
}

/** The template business layer of `src/core/template-manager.js`:
    validation, automatic names and search over the template store. */
module CoreTemplates {
  import opened Wrappers
  import opened Seqs
  import opened Text
  import opened Json
  import opened DataStorage
  import opened DataTemplates

  /** The parts of a `Date` the automatic name reads; `month` is
      `getMonth()`, counted from 0. */
  datatype DateTime = DateTime(year: nat, month: nat, day: nat, hours: nat, minutes: nat)
  {
    predicate Valid() {
      month < 12 && 1 <= day <= 31 && hours < 24 && minutes < 60
    }
  }

  const EmptyContent := "备忘录内容不能为空"
  const NamePrefix := "模板_"

  /** The name `saveContentAsTemplate` makes up when none is given:
      `模板_YYYYMMDD_HHMM` with every part but the year zero-padded to two digits. */
  function AutoName(d: DateTime): (r: string)
    requires d.Valid()
    ensures StartsWith(r, NamePrefix)
    ensures 1000 <= d.year < 10000 ==> |r| == 16 && r[11] == '_'
  {
    NamePrefix + NatToString(d.year) + Pad2(d.month + 1) + Pad2(d.day) + "_" + Pad2(d.hours) + Pad2(d.minutes)
  }

  /** For a four-digit year every field reads back from its place in the name. */
  lemma AutoNameFields(d: DateTime)
    requires d.Valid() && 1000 <= d.year < 10000
    ensures var r := AutoName(d);
      && (forall i :: 3 <= i < 16 && i != 11 ==> IsDigit(r[i]))
      && DigitsValue(r[3..7]) == d.year
      && DigitsValue(r[7..9]) == d.month + 1
      && DigitsValue(r[9..11]) == d.day
      && DigitsValue(r[12..14]) == d.hours
      && DigitsValue(r[14..16]) == d.minutes
  {
    var r := AutoName(d);
    var y, mo, da, h, mi := NatToString(d.year), Pad2(d.month + 1), Pad2(d.day), Pad2(d.hours), Pad2(d.minutes);
    NatToStringValue(d.year);
    Pad2Value(d.month + 1);
    Pad2Value(d.day);
    Pad2Value(d.hours);
    Pad2Value(d.minutes);
    assert r == NamePrefix + y + mo + da + "_" + h + mi;
    NameLayout(NamePrefix, y, mo, da, "_", h, mi);
  }

  /** Where each part of an automatic name sits. */
  lemma NameLayout(p: string, y: string, mo: string, da: string, u: string, h: string, mi: string)
    requires |p| == 3 && |y| == 4 && |mo| == 2 && |da| == 2 && |u| == 1 && |h| == 2 && |mi| == 2
    ensures var r := p + y + mo + da + u + h + mi;
      && r[3..7] == y && r[7..9] == mo && r[9..11] == da && r[12..14] == h && r[14..16] == mi
      && (forall i :: 3 <= i < 7 ==> r[i] == y[i - 3])
      && (forall i :: 7 <= i < 9 ==> r[i] == mo[i - 7])
      && (forall i :: 9 <= i < 11 ==> r[i] == da[i - 9])
      && (forall i :: 12 <= i < 14 ==> r[i] == h[i - 12])
      && (forall i :: 14 <= i < 16 ==> r[i] == mi[i - 14])
  {
  }

  /** Two saves in different minutes of four-digit years get different names. */
  lemma AutoNameInjective(a: DateTime, b: DateTime)
    requires a.Valid() && 1000 <= a.year < 10000
    requires b.Valid() && 1000 <= b.year < 10000
    requires AutoName(a) == AutoName(b)
    ensures a == b
  {
    AutoNameFields(a);
    AutoNameFields(b);
  }

  /** The test `searchTemplates` applies to each template: its lowercased
      name or content contains the lowercased query. */
  predicate Matches(t: TemplateItem, lowerQuery: string) {
    Contains(Lower(t.name), lowerQuery) || Contains(Lower(TextOf(t.content)), lowerQuery)
  }

  function MatchesQuery(lowerQuery: string): TemplateItem -> bool {
    (t: TemplateItem) => Matches(t, lowerQuery)
  }

  /** `searchTemplates(query)` over the template list. */
  function SearchResult(list: seq<TemplateItem>, query: string): (r: seq<TemplateItem>)
    ensures query == [] ==> r == list
    ensures query != [] ==> forall i :: 0 <= i < |r| ==> r[i] in list && Matches(r[i], Lower(query))
    ensures query != [] ==> forall i :: 0 <= i < |list| && Matches(list[i], Lower(query)) ==> list[i] in r
  {
    if query == [] then list else Filter(list, MatchesQuery(Lower(query)))
  }

  /** Searching the list in two parts gives the results of the first part
      before those of the second: the search keeps the list's order. */
  lemma SearchKeepsOrder(a: seq<TemplateItem>, b: seq<TemplateItem>, query: string)
    ensures SearchResult(a + b, query) == SearchResult(a, query) + SearchResult(b, query)
  {
    if query != [] {
      FilterAppend(a, b, MatchesQuery(Lower(query)));
    }
  }

  /** Every template matches a query that only differs from it in case. */
  lemma SearchIgnoresCase(t: TemplateItem)
    requires t.name != []
    ensures t in SearchResult([t], t.name)
  {
    assert StartsWith(Lower(t.name), Lower(t.name));
    assert MatchesQuery(Lower(t.name))(t);
  }

  class TemplateManager {
    const store: TemplateStore

    constructor (store: TemplateStore)
      ensures this.store == store
    {
      this.store := store;
    }

    method GetTemplateList() returns (r: Result<seq<TemplateItem>, string>)
      ensures r.Success? ==> r.value == TemplateList(TemplatesIn(store.area.items))
    {
      r := store.GetTemplateList();
    }

    /** `saveTemplate(name, content)`: rejects an empty name or content
        before touching the store. */
    method SaveTemplate(name: string, content: string, now: string) returns (r: Result<SavedTemplate, string>)
      modifies store.area
      ensures (name == [] || content == []) ==> r == Failure(EmptyTemplate) && store.area.items == old(store.area.items)
      ensures r.Failure? ==> store.area.items == old(store.area.items)
      ensures r.Success? ==>
        var before := TemplatesIn(old(store.area.items));
        var rec := TemplateRecord(before, name, content, now);
        && store.area.items == old(store.area.items)["templates" := Obj(Put(before, name, Obj(rec)))]
        && r.value == SavedTemplate(name, content, Get(rec, "createdAt"), Str(now), !Truthy(Get(before, name)))
    {
      if name == [] || content == [] {
        return Failure(EmptyTemplate);
      }
      r := store.SaveTemplate(name, content, now);
    }

    /** `getTemplateContent(name)`: the stored content, or `null`. */
    method GetTemplateContent(name: string) returns (r: Result<Value, string>)
      ensures r.Success? && Truthy(Get(TemplatesIn(store.area.items), name)) ==>
        r.value == Member(Get(TemplatesIn(store.area.items), name), "content")
      ensures r.Success? && !Truthy(Get(TemplatesIn(store.area.items), name)) ==> r.value == Null
    {
      var template := store.GetTemplate(name);
      if template.Failure? {
        return Failure(template.error);
      }
      r := Success(if Truthy(template.value) then Member(template.value, "content") else Null);
    }

    method DeleteTemplate(name: string) returns (r: Result<bool, string>)
      modifies store.area
      ensures r.Failure? ==> store.area.items == old(store.area.items)
      ensures r.Success? ==> r.value == Truthy(Get(TemplatesIn(old(store.area.items)), name))
      ensures r == Success(false) ==> store.area.items == old(store.area.items)
      ensures r == Success(true) ==>
        store.area.items == old(store.area.items)["templates" := Obj(Delete(TemplatesIn(old(store.area.items)), name))]
    {
      r := store.DeleteTemplate(name);
    }

    /** `saveContentAsTemplate(content, name)`: empty content is rejected;
        an empty name is replaced by the automatic one for `date`. */
    method SaveContentAsTemplate(content: string, name: string, date: DateTime, now: string) returns (r: Result<SavedTemplate, string>)
      requires date.Valid()
      modifies store.area
      ensures content == [] ==> r == Failure(EmptyContent) && store.area.items == old(store.area.items)
      ensures r.Failure? ==> store.area.items == old(store.area.items)
      ensures r.Success? ==>
        var n := if name == [] then AutoName(date) else name;
        var before := TemplatesIn(old(store.area.items));
        var rec := TemplateRecord(before, n, content, now);
        && store.area.items == old(store.area.items)["templates" := Obj(Put(before, n, Obj(rec)))]
        && r.value == SavedTemplate(n, content, Get(rec, "createdAt"), Str(now), !Truthy(Get(before, n)))
    {
      if content == [] {
        return Failure(EmptyContent);
      }
      var n := name;
      if n == [] {
        n := AutoName(date);
      }
      r := SaveTemplate(n, content, now);
    }

    method UpdateTemplateOrder(nameOrder: seq<string>) returns (r: Result<bool, string>)
      requires DistinctKeys(TemplatesIn(store.area.items))
      modifies store.area
      ensures r.Failure? ==> store.area.items == old(store.area.items)
      ensures r.Success? ==>
        r.value && store.area.items == old(store.area.items)["templates" := Obj(Reordered(TemplatesIn(old(store.area.items)), nameOrder))]
    {
      r := store.UpdateTemplateOrder(nameOrder);
    }

    /** `searchTemplates(query)` */
    method SearchTemplates(query: string) returns (r: Result<seq<TemplateItem>, string>)
      ensures r.Success? ==> r.value == SearchResult(TemplateList(TemplatesIn(store.area.items)), query)
    {
      var templates := GetTemplateList();
      if templates.Failure? {
        return Failure(templates.error);
      }
      r := Success(SearchResult(templates.value, query));
    }
  }
}

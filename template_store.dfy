/** The template store of `src/data/template-store.js`: the `templates`
    object in `chrome.storage.sync`, keyed by template name. */
module DataTemplates {
  import opened Wrappers
  import opened Seqs
  import opened Json
  import opened Chrome
  import opened DataStorage

  /** One element of `getTemplateList()`. */
  datatype TemplateItem = TemplateItem(name: string, content: Value, createdAt: Value, updatedAt: Value)

  /** What `saveTemplate` resolves with. */
  datatype SavedTemplate = SavedTemplate(name: string, content: string, createdAt: Value, updatedAt: Value, isNew: bool)

  /** `Object.keys(templates).map(...)`: one item per stored name, in key
      order, with `updatedAt` falling back to `createdAt`. */
  function TemplateList(templates: Fields): (r: seq<TemplateItem>)
    ensures |r| == |templates|
    ensures forall i :: 0 <= i < |r| ==>
      var rec := Get(templates, templates[i].0);
      && r[i].name == templates[i].0
      && r[i].content == Member(rec, "content")
      && r[i].createdAt == Member(rec, "createdAt")
      && (Truthy(Member(rec, "updatedAt")) ==> r[i].updatedAt == Member(rec, "updatedAt"))
      && (!Truthy(Member(rec, "updatedAt")) ==> r[i].updatedAt == Member(rec, "createdAt"))
  {
    seq(|templates|, i requires 0 <= i < |templates| =>
      var name := templates[i].0;
      var rec := Get(templates, name);
      TemplateItem(name, Member(rec, "content"), Member(rec, "createdAt"),
                   Or(Member(rec, "updatedAt"), Member(rec, "createdAt"))))
  }

  /** The record `saveTemplate(name, content)` writes: only `content`,
      `createdAt` (kept from an existing record) and `updatedAt`. */
  function TemplateRecord(templates: Fields, name: string, content: string, now: string): Fields {
    var isNew := !Truthy(Get(templates, name));
    [("content", Str(content)),
     ("createdAt", if isNew then Str(now) else Member(Get(templates, name), "createdAt")),
     ("updatedAt", Str(now))]
  }

  const EmptyTemplate := "模板名称和内容不能为空"

  /** `n` is not among `names`. */
  function NotIn(names: seq<string>): string -> bool {
    n => n !in names
  }

  /** The names of `nameOrder` that name a stored template, first occurrences only. */
  function Listed(templates: Fields, nameOrder: seq<string>): seq<string> {
    Dedup(Filter(nameOrder, TruthyAt(templates)))
  }

  /** The stored names `nameOrder` does not list, in their stored order. */
  function Unlisted(templates: Fields, nameOrder: seq<string>): seq<string> {
    Filter(Keys(templates), NotIn(Listed(templates, nameOrder)))
  }

  /** The entries of `templates` for the names `ks`, in that order. */
  function Entries(ks: seq<string>, templates: Fields): (r: Fields)
    ensures Keys(r) == ks
  {
    seq(|ks|, i requires 0 <= i < |ks| => (ks[i], Get(templates, ks[i])))
  }

  /** The object `updateTemplateOrder(nameOrder)` writes back. */
  function Reordered(templates: Fields, nameOrder: seq<string>): Fields {
    Entries(Listed(templates, nameOrder) + Unlisted(templates, nameOrder), templates)
  }

  lemma EntriesCons(ks: seq<string>, templates: Fields)
    requires ks != []
    ensures Entries(ks, templates) == [(ks[0], Get(templates, ks[0]))] + Entries(ks[1..], templates)
  {
  }

  lemma {:induction false} EntriesGet(ks: seq<string>, templates: Fields, k: string)
    requires k in ks
    ensures Get(Entries(ks, templates), k) == Get(templates, k)
  {
    EntriesCons(ks, templates);
    if ks[0] != k {
      EntriesGet(ks[1..], templates, k);
    }
  }

  /** Setting a name to its own stored value extends the entry list. */
  lemma {:induction false} EntriesPut(ks: seq<string>, templates: Fields, k: string)
    ensures Put(Entries(ks, templates), k, Get(templates, k))
         == Entries(if k in ks then ks else ks + [k], templates)
  {
    var e := Entries(ks, templates);
    var v := Get(templates, k);
    if ks == [] {
      assert Entries([k], templates) == [(k, v)];
    } else {
      EntriesCons(ks, templates);
      if ks[0] == k {
        assert Put(e, k, v) == [(k, v)] + e[1..];
      } else {
        EntriesPut(ks[1..], templates, k);
        assert Put(e, k, v) == [e[0]] + Put(e[1..], k, v);
        if k !in ks {
          EntriesCons(ks + [k], templates);
          assert (ks + [k])[1..] == ks[1..] + [k];
        }
      }
    }
  }

  lemma FilterSnoc(s: seq<string>, x: string, p: string -> bool)
    ensures Filter(s + [x], p) == Filter(s, p) + (if p(x) then [x] else [])
  {
    assert (s + [x])[..|s|] == s;
  }

  lemma DedupSnoc(s: seq<string>, x: string)
    ensures Dedup(s + [x]) == if x in Dedup(s) then Dedup(s) else Dedup(s) + [x]
  {
    assert (s + [x])[..|s|] == s;
  }

  /** One step of the first loop of `updateTemplateOrder`. */
  lemma ListedStep(templates: Fields, nameOrder: seq<string>, i: nat)
    requires i < |nameOrder|
    ensures var name, ordered := nameOrder[i], Entries(Listed(templates, nameOrder[..i]), templates);
      Entries(Listed(templates, nameOrder[..i + 1]), templates)
        == if Truthy(Get(templates, name)) then Put(ordered, name, Get(templates, name)) else ordered
  {
    var done, name := nameOrder[..i], nameOrder[i];
    assert nameOrder[..i + 1] == done + [name];
    var p := TruthyAt(templates);
    var f := Filter(done, p);
    FilterSnoc(done, name, p);
    assert p(name) == Truthy(Get(templates, name));
    if p(name) {
      assert Filter(done + [name], p) == f + [name];
      DedupSnoc(f, name);
      EntriesPut(Dedup(f), templates, name);
    } else {
      assert Filter(done + [name], p) == f;
    }
  }

  /** One step of the second loop of `updateTemplateOrder`. */
  lemma UnlistedStep(templates: Fields, listed: seq<string>, keys: seq<string>, j: nat)
    requires Distinct(keys) && j < |keys|
    requires forall i :: 0 <= i < |listed| ==> Truthy(Get(templates, listed[i]))
    ensures var ordered := Entries(listed + Filter(keys[..j], NotIn(listed)), templates);
      Entries(listed + Filter(keys[..j + 1], NotIn(listed)), templates)
        == if !Truthy(Get(ordered, keys[j])) then Put(ordered, keys[j], Get(templates, keys[j])) else ordered
  {
    var name, seen, p := keys[j], keys[..j], NotIn(listed);
    assert keys[..j + 1] == seen + [name];
    FilterSnoc(seen, name, p);
    if name in listed {
      assert !p(name);
      UnlistedSkip(templates, listed, seen, name);
    } else {
      assert p(name);
      assert name !in seen by {
        DistinctInit(keys[..j + 1]);
      }
      assert listed + Filter(keys[..j + 1], p) == listed + Filter(seen, p) + [name];
      UnlistedAdd(templates, listed, seen, name);
    }
  }

  /** A listed name met again in the second loop is already present. */
  lemma UnlistedSkip(templates: Fields, listed: seq<string>, seen: seq<string>, name: string)
    requires name in listed
    requires forall i :: 0 <= i < |listed| ==> Truthy(Get(templates, listed[i]))
    ensures Truthy(Get(Entries(listed + Filter(seen, NotIn(listed)), templates), name))
  {
    EntriesGet(listed + Filter(seen, NotIn(listed)), templates, name);
  }

  /** An unlisted name met for the first time in the second loop is absent
      so far and goes last. */
  lemma UnlistedAdd(templates: Fields, listed: seq<string>, seen: seq<string>, name: string)
    requires name !in listed && name !in seen
    ensures var done := listed + Filter(seen, NotIn(listed));
      && !Truthy(Get(Entries(done, templates), name))
      && Put(Entries(done, templates), name, Get(templates, name)) == Entries(done + [name], templates)
  {
    var done := listed + Filter(seen, NotIn(listed));
    assert name !in done;
    EntriesPut(done, templates, name);
  }

  lemma DistinctConcat(a: seq<string>, b: seq<string>)
    requires Distinct(a) && Distinct(b)
    requires forall i :: 0 <= i < |b| ==> b[i] !in a
    ensures Distinct(a + b)
  {
    var s := a + b;
    forall i, j | 0 <= i < j < |s| ensures s[i] != s[j] {
      if j >= |a| && i < |a| {
        assert s[j] == b[j - |a|];
      }
    }
  }

  /** The two loops of `updateTemplateOrder`: first the stored names in
      the order `nameOrder` gives, then every other stored name in its
      stored order, each with its record unchanged. */
  method BuildOrdered(templates: Fields, nameOrder: seq<string>) returns (ordered: Fields)
    requires DistinctKeys(templates)
    ensures ordered == Reordered(templates, nameOrder)
  {
    ordered := OrderListed(templates, nameOrder);
    ordered := AppendUnlisted(templates, nameOrder, ordered);
  }

  /** The first loop: `nameOrder`'s stored names, each once, in its order. */
  method OrderListed(templates: Fields, nameOrder: seq<string>) returns (ordered: Fields)
    ensures ordered == Entries(Listed(templates, nameOrder), templates)
  {
    ordered := [];
    var i := 0;
    while i < |nameOrder|
      invariant 0 <= i <= |nameOrder|
      invariant ordered == Entries(Listed(templates, nameOrder[..i]), templates)
    {
      var name := nameOrder[i];
      ListedStep(templates, nameOrder, i);
      if Truthy(Get(templates, name)) {
        ordered := Put(ordered, name, Get(templates, name));
      }
      i := i + 1;
    }
    assert nameOrder[..i] == nameOrder;
  }

  /** The second loop: every stored name not yet present, in stored order. */
  method AppendUnlisted(templates: Fields, nameOrder: seq<string>, listedEntries: Fields) returns (ordered: Fields)
    requires DistinctKeys(templates)
    requires listedEntries == Entries(Listed(templates, nameOrder), templates)
    ensures ordered == Reordered(templates, nameOrder)
  {
    var listed := Listed(templates, nameOrder);
    var keys := Keys(templates);
    ListedTruthy(templates, nameOrder);
    assert keys[..0] == [] && listed + [] == listed;
    ordered := listedEntries;
    var j := 0;
    while j < |keys|
      invariant 0 <= j <= |keys|
      invariant ordered == Entries(listed + Filter(keys[..j], NotIn(listed)), templates)
    {
      UnlistedStep(templates, listed, keys, j);
      var name := keys[j];
      if !Truthy(Get(ordered, name)) {
        ordered := Put(ordered, name, Get(templates, name));
      }
      j := j + 1;
    }
    assert keys[..j] == keys;
  }

  /** Every name `updateTemplateOrder` lists first names a stored template. */
  lemma ListedTruthy(templates: Fields, nameOrder: seq<string>)
    ensures var listed := Listed(templates, nameOrder);
      forall i :: 0 <= i < |listed| ==> Truthy(Get(templates, listed[i]))
  {
    var f := Filter(nameOrder, TruthyAt(templates));
    forall i | 0 <= i < |Dedup(f)| ensures Truthy(Get(templates, Dedup(f)[i])) {
      assert Dedup(f)[i] in f;
      var k :| 0 <= k < |f| && f[k] == Dedup(f)[i];
      assert TruthyAt(templates)(f[k]);
    }
  }

  /** `updateTemplateOrder` keeps every stored name exactly once and every
      record unchanged. */
  lemma ReorderedKeepsTemplates(templates: Fields, nameOrder: seq<string>)
    requires DistinctKeys(templates)
    ensures DistinctKeys(Reordered(templates, nameOrder))
    ensures forall k :: k in Keys(Reordered(templates, nameOrder)) <==> k in Keys(templates)
    ensures forall k :: Get(Reordered(templates, nameOrder), k) == Get(templates, k)
  {
    var listed := Listed(templates, nameOrder);
    var unlisted := Unlisted(templates, nameOrder);
    FilterDistinct(Keys(templates), NotIn(listed));
    DistinctConcat(listed, unlisted);
    forall k ensures Get(Reordered(templates, nameOrder), k) == Get(templates, k) {
      if k in listed + unlisted {
        EntriesGet(listed + unlisted, templates, k);
      } else {
        forall i | 0 <= i < |Keys(templates)| ensures Keys(templates)[i] != k {
          var n := Keys(templates)[i];
          assert NotIn(listed)(n) ==> n in unlisted;
        }
      }
    }
  }

  class TemplateStore {
    const area: SyncArea

    constructor (area: SyncArea)
      ensures this.area == area
    {
      this.area := area;
    }

    /** `getAllTemplates`: the `templates` object, `{}` when there is none. */
    method GetAllTemplates() returns (r: Result<Fields, string>)
      ensures r.Success? ==> r.value == TemplatesIn(area.items)
      ensures r.Success? && "templates" !in area.items ==> r.value == []
    {
      var got := area.Get("templates");
      if got.Failure? {
        return Failure(got.error);
      }
      r := Success(FieldsOf(got.value));
    }

    method GetTemplateList() returns (r: Result<seq<TemplateItem>, string>)
      ensures r.Success? ==> r.value == TemplateList(TemplatesIn(area.items))
    {
      var all := GetAllTemplates();
      if all.Failure? {
        return Failure(all.error);
      }
      r := Success(TemplateList(all.value));
    }

    /** `getTemplate(name)`: the stored record, or `null`. */
    method GetTemplate(name: string) returns (r: Result<Value, string>)
      ensures r.Success? && Truthy(Get(TemplatesIn(area.items), name)) ==>
        r.value == Get(TemplatesIn(area.items), name)
      ensures r.Success? && !Truthy(Get(TemplatesIn(area.items), name)) ==> r.value == Null
    {
      var all := GetAllTemplates();
      if all.Failure? {
        return Failure(all.error);
      }
      r := Success(Or(Get(all.value, name), Null));
    }

    /** `saveTemplate(name, content)` */
    method SaveTemplate(name: string, content: string, now: string) returns (r: Result<SavedTemplate, string>)
      modifies area
      ensures (name == [] || content == []) ==> r == Failure(EmptyTemplate)
      ensures r.Failure? ==> area.items == old(area.items)
      ensures r.Success? ==>
        var before := TemplatesIn(old(area.items));
        var rec := TemplateRecord(before, name, content, now);
        && area.items == old(area.items)["templates" := Obj(Put(before, name, Obj(rec)))]
        && r.value == SavedTemplate(name, content, Get(rec, "createdAt"), Str(now), !Truthy(Get(before, name)))
    {
      if name == [] || content == [] {
        return Failure(EmptyTemplate);
      }
      var all := GetAllTemplates();
      if all.Failure? {
        return Failure(all.error);
      }
      var isNew := !Truthy(Get(all.value, name));
      var rec := [("content", Str(content)),
                  ("createdAt", if isNew then Str(now) else Member(Get(all.value, name), "createdAt")),
                  ("updatedAt", Str(now))];
      var templates := Put(all.value, name, Obj(rec));
      var err := area.Set("templates", Obj(templates));
      if err.Some? {
        return Failure(err.value);
      }
      r := Success(SavedTemplate(name, content, rec[1].1, rec[2].1, isNew));
    }

    /** `deleteTemplate(name)`: false without a write when absent, otherwise
        removes exactly that name and resolves true. */
    method DeleteTemplate(name: string) returns (r: Result<bool, string>)
      modifies area
      ensures r.Failure? ==> area.items == old(area.items)
      ensures r.Success? ==> r.value == Truthy(Get(TemplatesIn(old(area.items)), name))
      ensures r == Success(false) ==> area.items == old(area.items)
      ensures r == Success(true) ==>
        area.items == old(area.items)["templates" := Obj(Delete(TemplatesIn(old(area.items)), name))]
    {
      var all := GetAllTemplates();
      if all.Failure? {
        return Failure(all.error);
      }
      if !Truthy(Get(all.value, name)) {
        return Success(false);
      }
      var err := area.Set("templates", Obj(Delete(all.value, name)));
      if err.Some? {
        return Failure(err.value);
      }
      r := Success(true);
    }

    /** `updateTemplateOrder(nameOrder)`: rewrites the object in the new order. */
    method UpdateTemplateOrder(nameOrder: seq<string>) returns (r: Result<bool, string>)
      requires DistinctKeys(TemplatesIn(area.items))
      modifies area
      ensures r.Failure? ==> area.items == old(area.items)
      ensures r.Success? ==>
        r.value && area.items == old(area.items)["templates" := Obj(Reordered(TemplatesIn(old(area.items)), nameOrder))]
    {
      var all := GetAllTemplates();
      if all.Failure? {
        return Failure(all.error);
      }
      var ordered := BuildOrdered(all.value, nameOrder);
      var err := area.Set("templates", Obj(ordered));
      if err.Some? {
        return Failure(err.value);
      }
      r := Success(true);
    }
  }

  /** Saving a new name stamps both dates with `now` and reports it new;
      re-saving keeps `createdAt`; the record has exactly three fields (any
      `order` is dropped); every other name is untouched. */
  lemma SaveTemplateRecord(templates: Fields, name: string, content: string, now: string)
    ensures var rec := TemplateRecord(templates, name, content, now);
      && Keys(rec) == ["content", "createdAt", "updatedAt"]
      && Get(rec, "content") == Str(content)
      && Get(rec, "updatedAt") == Str(now)
      && (!Truthy(Get(templates, name)) ==> Get(rec, "createdAt") == Str(now))
      && (Truthy(Get(templates, name)) ==> Get(rec, "createdAt") == Member(Get(templates, name), "createdAt"))
      && Get(rec, "order") == Undefined
    ensures forall n :: n != name ==>
      Get(Put(templates, name, Obj(TemplateRecord(templates, name, content, now))), n) == Get(templates, n)
  {
    var rec := TemplateRecord(templates, name, content, now);
    assert Get(rec[1..], "createdAt") == rec[1].1;
    assert Get(rec[2..], "updatedAt") == rec[2].1;
    assert "order" !in Keys(rec);
  }
}

/** The simplified template store of the root `template-manager.js`: one
    `localStorage` entry, `memoTemplates`, holding an object of templates
    by name. */
module LocalTemplates {
  import opened Wrappers
  import opened Json
  import opened Chrome

  const StoreKey := "memoTemplates"

  /** `JSON.parse(localStorage.getItem('memoTemplates') || '{}')`: the
      stored object, or an empty one when nothing is stored. */
  function StoredTemplates(items: map<string, Value>): (templates: Fields)
    ensures StoreKey !in items ==> templates == []
    ensures StoreKey in items && items[StoreKey].Obj? ==> templates == items[StoreKey].fields
  {
    FieldsOf(At(items, StoreKey))
  }

  /** The record `saveAsTemplate` writes. */
  function TemplateRecord(content: Value, now: int): (r: Value)
    ensures Truthy(r)
    ensures Member(r, "content") == content && Member(r, "createdAt") == Num(now)
  {
    var fs := [("content", content), ("createdAt", Num(now))];
    GetAt(fs, 1, "createdAt");
    Obj(fs)
  }

  /** The functions of `template-manager.js`, over the page's
      `localStorage`. */
  class TemplateManager {
    const storage: LocalArea

    constructor (storage: LocalArea)
      ensures this.storage == storage
    {
      this.storage := storage;
    }

    /** `saveAsTemplate(content, name)`: the name gets `{content, createdAt}`,
        replacing any template of that name; always `true`. */
    method SaveAsTemplate(content: Value, name: string, now: int) returns (saved: bool)
      modifies storage
      ensures saved
      ensures storage.items == old(storage.items)[StoreKey := Obj(Put(StoredTemplates(old(storage.items)), name, TemplateRecord(content, now)))]
    {
      var stored := storage.Get(StoreKey);
      var templates := FieldsOf(stored);
      templates := Put(templates, name, TemplateRecord(content, now));
      storage.Set(StoreKey, Obj(templates));
      saved := true;
    }

    /** `getAllTemplates()` */
    method GetAllTemplates() returns (templates: Fields)
      ensures templates == StoredTemplates(storage.items)
      ensures StoreKey !in storage.items ==> templates == []
    {
      var stored := storage.Get(StoreKey);
      templates := FieldsOf(stored);
    }

    /** `useTemplate(name, callback)`: the callback gets the stored content
        (the second result) exactly when a template of that name exists. */
    method UseTemplate(name: string) returns (used: bool, callbackArg: Option<Value>)
      ensures used <==> Truthy(Get(StoredTemplates(storage.items), name))
      ensures used ==> callbackArg == Some(Member(Get(StoredTemplates(storage.items), name), "content"))
      ensures !used ==> callbackArg.None?
    {
      var templates := GetAllTemplates();
      if Truthy(Get(templates, name)) {
        return true, Some(Member(Get(templates, name), "content"));
      }
      return false, None;
    }

    /** `deleteTemplate(name)`: `false` and no write without such a
        template; otherwise the name is removed and the rest written back. */
    method DeleteTemplate(name: string) returns (deleted: bool)
      modifies storage
      ensures deleted <==> Truthy(Get(StoredTemplates(old(storage.items)), name))
      ensures !deleted ==> storage.items == old(storage.items)
      ensures deleted ==> storage.items == old(storage.items)[StoreKey := Obj(Delete(StoredTemplates(old(storage.items)), name))]
    {
      var templates := GetAllTemplates();
      if Truthy(Get(templates, name)) {
        templates := Delete(templates, name);
        storage.Set(StoreKey, Obj(templates));
        return true;
      }
      return false;
    }
  }

  /** After `saveAsTemplate(c, n)`, `getAllTemplates()[n].content` is `c`,
      `useTemplate(n)` succeeds, and every other name reads as before. */
  lemma SaveThenRead(items: map<string, Value>, content: Value, name: string, now: int)
    ensures var after := items[StoreKey := Obj(Put(StoredTemplates(items), name, TemplateRecord(content, now)))];
      && Member(Get(StoredTemplates(after), name), "content") == content
      && Truthy(Get(StoredTemplates(after), name))
      && forall k :: k != name ==> Get(StoredTemplates(after), k) == Get(StoredTemplates(items), k)
  {
  }

  /** After a successful `deleteTemplate(n)`, `useTemplate(n)` fails and
      every other name reads as before. */
  lemma DeleteThenRead(items: map<string, Value>, name: string)
    ensures var after := items[StoreKey := Obj(Delete(StoredTemplates(items), name))];
      && !Truthy(Get(StoredTemplates(after), name))
      && forall k :: k != name ==> Get(StoredTemplates(after), k) == Get(StoredTemplates(items), k)
  {
  }
}

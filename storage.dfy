/** The unified memo store of `src/data/storage.js`: every operation reads
    the whole `memos` object from `chrome.storage.sync`, changes one entry
    and writes the whole object back. */
module DataStorage {
  import opened Wrappers
  import opened Json
  import opened Chrome

  /** `result.memos || {}` */
  function MemosIn(items: map<string, Value>): Fields {
    FieldsOf(At(items, "memos"))
  }

  /** `result.templates || {}` */
  function TemplatesIn(items: map<string, Value>): Fields {
    FieldsOf(At(items, "templates"))
  }

  /** The record `saveMemo` stores: `{...data, updatedAt: now}`. */
  function Stamped(data: Fields, now: string): (r: Fields)
    ensures Get(r, "updatedAt") == Str(now)
    ensures forall k :: k != "updatedAt" ==> Get(r, k) == Get(data, k)
  {
    Put(data, "updatedAt", Str(now))
  }

  /** The store after `saveMemo(domain, data)` at time `now`. */
  function SavedState(items: map<string, Value>, domain: string, data: Fields, now: string): map<string, Value> {
    items["memos" := Obj(Put(MemosIn(items), domain, Obj(Stamped(data, now))))]
  }

  /** The store after `deleteMemo(domain)` found the domain. */
  function DeletedState(items: map<string, Value>, domain: string): map<string, Value> {
    items["memos" := Obj(Delete(MemosIn(items), domain))]
  }

  /** The object `exportData` resolves with. */
  function ExportValue(items: map<string, Value>, now: string): Value {
    Obj([("memos", Obj(MemosIn(items))), ("templates", Obj(TemplatesIn(items))),
         ("exportedAt", Str(now)), ("version", Str("1.0.0"))])
  }

  /** The check at the head of `importData`. */
  predicate ImportAccepted(data: Value) {
    Truthy(data) && Truthy(Member(data, "memos")) && Truthy(Member(data, "templates"))
  }

  /** The store after a successful `importData(data)`. */
  function ImportedState(items: map<string, Value>, data: Value): map<string, Value> {
    items["memos" := Member(data, "memos")]["templates" := Member(data, "templates")]
  }

  const InvalidImport := "导入数据格式无效"

  class StorageManager {
    const area: SyncArea

    constructor (area: SyncArea)
      ensures this.area == area
    {
      this.area := area;
    }

    /** `getAllMemos`: the `memos` object, `{}` when there is none. */
    method GetAllMemos() returns (r: Result<Fields, string>)
      ensures r.Success? ==> r.value == MemosIn(area.items)
      ensures r.Success? && "memos" !in area.items ==> r.value == []
    {
      var got := area.Get("memos");
      if got.Failure? {
        return Failure(got.error);
      }
      r := Success(FieldsOf(got.value));
    }

    method GetAllTemplates() returns (r: Result<Fields, string>)
      ensures r.Success? ==> r.value == TemplatesIn(area.items)
    {
      var got := area.Get("templates");
      if got.Failure? {
        return Failure(got.error);
      }
      r := Success(FieldsOf(got.value));
    }

    /** `saveMemo(domain, data)`: stores `data` stamped with `updatedAt` and
        resolves with exactly the record it stored; a rejected call wrote nothing. */
    method SaveMemo(domain: string, data: Fields, now: string) returns (r: Result<Value, string>)
      modifies area
      ensures r.Success? ==>
        r.value == Obj(Stamped(data, now)) && area.items == SavedState(old(area.items), domain, data, now)
      ensures r.Failure? ==> area.items == old(area.items)
    {
      var all := GetAllMemos();
      if all.Failure? {
        return Failure(all.error);
      }
      var memos := Put(all.value, domain, Obj(Stamped(data, now)));
      var err := area.Set("memos", Obj(memos));
      if err.Some? {
        return Failure(err.value);
      }
      r := Success(Get(memos, domain));
    }

    /** `getMemo(domain)`: the stored record, or `null` when there is none. */
    method GetMemo(domain: string) returns (r: Result<Value, string>)
      ensures r.Success? && Truthy(Get(MemosIn(area.items), domain)) ==>
        r.value == Get(MemosIn(area.items), domain)
      ensures r.Success? && !Truthy(Get(MemosIn(area.items), domain)) ==> r.value == Null
    {
      var all := GetAllMemos();
      if all.Failure? {
        return Failure(all.error);
      }
      r := Success(Or(Get(all.value, domain), Null));
    }

    /** `deleteMemo(domain)`: false without a write when there is no memo,
        otherwise removes that one entry and resolves true. */
    method DeleteMemo(domain: string) returns (r: Result<bool, string>)
      modifies area
      ensures r.Failure? ==> area.items == old(area.items)
      ensures r.Success? ==> r.value == Truthy(Get(MemosIn(old(area.items)), domain))
      ensures r == Success(false) ==> area.items == old(area.items)
      ensures r == Success(true) ==> area.items == DeletedState(old(area.items), domain)
    {
      var all := GetAllMemos();
      if all.Failure? {
        return Failure(all.error);
      }
      if !Truthy(Get(all.value, domain)) {
        return Success(false);
      }
      var err := area.Set("memos", Obj(Delete(all.value, domain)));
      if err.Some? {
        return Failure(err.value);
      }
      r := Success(true);
    }

    /** `exportData()`: both objects, the export time and the format version. */
    method ExportData(now: string) returns (r: Result<Value, string>)
      ensures r.Success? ==> r.value == ExportValue(area.items, now)
    {
      var memos := GetAllMemos();
      if memos.Failure? {
        return Failure(memos.error);
      }
      var templates := GetAllTemplates();
      if templates.Failure? {
        return Failure(templates.error);
      }
      r := Success(Obj([("memos", Obj(memos.value)), ("templates", Obj(templates.value)),
                        ("exportedAt", Str(now)), ("version", Str("1.0.0"))]));
    }

    /** `importData(data)`: rejects data without `memos` or without
        `templates` before writing anything; otherwise overwrites `memos`,
        then `templates`. A rejected second write leaves the first in place. */
    method ImportData(data: Value) returns (r: Result<bool, string>)
      modifies area
      ensures !ImportAccepted(data) ==> r == Failure(InvalidImport) && area.items == old(area.items)
      ensures r.Success? ==> r.value && area.items == ImportedState(old(area.items), data)
      ensures r.Failure? ==>
        area.items == old(area.items) || area.items == old(area.items)["memos" := Member(data, "memos")]
    {
      if !Truthy(data) || !Truthy(Member(data, "memos")) || !Truthy(Member(data, "templates")) {
        return Failure(InvalidImport);
      }
      var err := area.Set("memos", Member(data, "memos"));
      if err.Some? {
        return Failure(err.value);
      }
      err := area.Set("templates", Member(data, "templates"));
      if err.Some? {
        return Failure(err.value);
      }
      r := Success(true);
    }
  }

  /** After `saveMemo(domain, data)`, `getMemo(domain)` yields the stamped
      record, every other domain's entry is what it was, and no other key
      of the store changed. */
  lemma SaveMemoFrame(items: map<string, Value>, domain: string, data: Fields, now: string)
    ensures Get(MemosIn(SavedState(items, domain, data, now)), domain) == Obj(Stamped(data, now))
    ensures forall d :: d != domain ==>
      Get(MemosIn(SavedState(items, domain, data, now)), d) == Get(MemosIn(items), d)
    ensures forall k :: k != "memos" ==> At(SavedState(items, domain, data, now), k) == At(items, k)
  {
  }

  /** After a delete that found the domain, `getMemo(domain)` is null and
      every other domain keeps its entry. */
  lemma DeleteMemoFrame(items: map<string, Value>, domain: string)
    ensures Get(MemosIn(DeletedState(items, domain)), domain) == Undefined
    ensures forall d :: d != domain ==>
      Get(MemosIn(DeletedState(items, domain)), d) == Get(MemosIn(items), d)
    ensures Keys(MemosIn(DeletedState(items, domain))) == Seqs.Without(Keys(MemosIn(items)), domain)
  {
  }

  /** Importing what `exportData` produced is accepted and leaves the
      `memos` and `templates` objects as they were read before. */
  lemma ExportImportRoundTrip(items: map<string, Value>, now: string)
    ensures ImportAccepted(ExportValue(items, now))
    ensures MemosIn(ImportedState(items, ExportValue(items, now))) == MemosIn(items)
    ensures TemplatesIn(ImportedState(items, ExportValue(items, now))) == TemplatesIn(items)
  {
    var e := ExportValue(items, now).fields;
    assert Get(e, "memos") == Obj(MemosIn(items));
    assert Get(e[1..], "templates") == Obj(TemplatesIn(items));
  }
}

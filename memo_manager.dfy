/** The memo business layer of `src/core/memo-manager.js`, working for the
    page the content script runs in. */
module CoreMemos {
  import opened Wrappers
  import opened Json
  import opened Chrome
  import opened DataStorage

  /** One element of `getAllMemosList()`. */
  datatype MemoItem = MemoItem(domain: string, content: Value, url: Value, title: Value, updatedAt: Value, createdAt: Value)

  /** `await this.loadCurrentMemo() || {}`: the page's record, or an empty object. */
  function CurrentMemo(items: map<string, Value>, domain: string): (v: Value)
    ensures Truthy(Get(MemosIn(items), domain)) ==> v == Get(MemosIn(items), domain)
    ensures !Truthy(Get(MemosIn(items), domain)) ==> v == Obj([])
  {
    Or(Get(MemosIn(items), domain), Obj([]))
  }

  /** `options.position || currentMemo.position || null` */
  function MergedPosition(current: Value, options: Fields): (v: Value)
    ensures Truthy(Get(options, "position")) ==> v == Get(options, "position")
    ensures !Truthy(Get(options, "position")) && Truthy(Member(current, "position")) ==> v == Member(current, "position")
    ensures !Truthy(Get(options, "position")) && !Truthy(Member(current, "position")) ==> v == Null
  {
    Or(Or(Get(options, "position"), Member(current, "position")), Null)
  }

  /** `options.isVisible !== undefined ? options.isVisible : (currentMemo.isVisible || true)`:
      an omitted option never yields a falsy value. */
  function MergedVisibility(current: Value, options: Fields): (v: Value)
    ensures Get(options, "isVisible") != Undefined ==> v == Get(options, "isVisible")
    ensures Get(options, "isVisible") == Undefined ==> Truthy(v)
    ensures Get(options, "isVisible") == Undefined && Truthy(Member(current, "isVisible")) ==> v == Member(current, "isVisible")
    ensures Get(options, "isVisible") == Undefined && !Truthy(Member(current, "isVisible")) ==> v == Bool(true)
  {
    var isVisible := Get(options, "isVisible");
    if isVisible != Undefined then isVisible else Or(Member(current, "isVisible"), Bool(true))
  }

  /** `currentMemo.createdAt || now` */
  function MergedCreatedAt(current: Value, now: string): (v: Value)
    ensures Truthy(Member(current, "createdAt")) ==> v == Member(current, "createdAt")
    ensures !Truthy(Member(current, "createdAt")) ==> v == Str(now)
  {
    Or(Member(current, "createdAt"), Str(now))
  }

  /** The object literal `saveMemo` builds, field by field. */
  function MemoFields(content: Value, position: Value, isVisible: Value, createdAt: Value, url: Value, title: Value): (r: Fields)
    ensures Keys(r) == ["content", "position", "isVisible", "createdAt", "url", "title"]
    ensures Get(r, "content") == content && Get(r, "position") == position
    ensures Get(r, "isVisible") == isVisible && Get(r, "createdAt") == createdAt
    ensures Get(r, "url") == url && Get(r, "title") == title
  {
    var r := [("content", content), ("position", position), ("isVisible", isVisible),
              ("createdAt", createdAt), ("url", url), ("title", title)];
    KeysOfSix(r[0], r[1], r[2], r[3], r[4], r[5]);
    GetOfSix(r[0], r[1], r[2], r[3], r[4], r[5]);
    r
  }

  /** The names of a six-property object literal, in order. */
  lemma KeysOfSix(a: (string, Value), b: (string, Value), c: (string, Value),
                  d: (string, Value), e: (string, Value), f: (string, Value))
    ensures Keys([a, b, c, d, e, f]) == [a.0, b.0, c.0, d.0, e.0, f.0]
  {
  }

  /** Reading a property of an object literal skips the properties before it
      that have other names. */
  lemma GetSkip(x: (string, Value), fs: Fields, k: string)
    requires x.0 != k
    ensures Get([x] + fs, k) == Get(fs, k)
  {
    assert ([x] + fs)[1..] == fs;
  }

  /** In a six-property object literal with distinct names each name reads
      its own value. */
  lemma GetOfSix(a: (string, Value), b: (string, Value), c: (string, Value),
                 d: (string, Value), e: (string, Value), f: (string, Value))
    requires a.0 != b.0 && a.0 != c.0 && a.0 != d.0 && a.0 != e.0 && a.0 != f.0
    requires b.0 != c.0 && b.0 != d.0 && b.0 != e.0 && b.0 != f.0
    requires c.0 != d.0 && c.0 != e.0 && c.0 != f.0
    requires d.0 != e.0 && d.0 != f.0 && e.0 != f.0
    ensures var r := [a, b, c, d, e, f];
      && Get(r, a.0) == a.1 && Get(r, b.0) == b.1 && Get(r, c.0) == c.1
      && Get(r, d.0) == d.1 && Get(r, e.0) == e.1 && Get(r, f.0) == f.1
  {
    var r5 := [f];
    var r4 := [e] + r5;
    var r3 := [d] + r4;
    var r2 := [c] + r3;
    var r1 := [b] + r2;
    assert [a, b, c, d, e, f] == [a] + r1;
    GetSkip(a, r1, b.0);
    GetSkip(a, r1, c.0); GetSkip(b, r2, c.0);
    GetSkip(a, r1, d.0); GetSkip(b, r2, d.0); GetSkip(c, r3, d.0);
    GetSkip(a, r1, e.0); GetSkip(b, r2, e.0); GetSkip(c, r3, e.0); GetSkip(d, r4, e.0);
    GetSkip(a, r1, f.0); GetSkip(b, r2, f.0); GetSkip(c, r3, f.0); GetSkip(d, r4, f.0); GetSkip(e, r5, f.0);
  }

  /** The icon position is not among the six fields of a saved memo. */
  lemma FloatingIconPositionNotSaved()
    ensures "floatingIconPosition" !in ["content", "position", "isVisible", "createdAt", "url", "title"]
  {
  }

  /** The record `saveMemo(content, options)` hands to storage, given the
      current record (`null` when there is none): exactly six fields, so
      nothing else of the current record is carried over. Reading a field
      of `memo || {}` is reading it from `memo`, since a falsy record has
      no fields. */
  function MergedRecord(current: Value, content: string, options: Fields, now: string, href: string, title: string): (r: Fields)
    ensures Keys(r) == ["content", "position", "isVisible", "createdAt", "url", "title"]
    ensures Get(r, "content") == Str(content)
    ensures Get(r, "position") == MergedPosition(current, options)
    ensures Get(r, "isVisible") == MergedVisibility(current, options)
    ensures Get(r, "createdAt") == MergedCreatedAt(current, now)
    ensures Get(r, "url") == Str(href) && Get(r, "title") == Str(title)
    ensures Get(r, "floatingIconPosition") == Undefined
  {
    var r := MemoFields(Str(content), MergedPosition(current, options), MergedVisibility(current, options),
                        MergedCreatedAt(current, now), Str(href), Str(title));
    FloatingIconPositionNotSaved();
    r
  }

  /** The content `addSelectionToMemo(text)` saves: the current content,
      a blank line and `text`, or `text` alone when there is no content. */
  function AppendedContent(current: Value, text: string): (r: string)
    ensures |r| >= |text| && r[|r| - |text|..] == text
    ensures Truthy(Member(current, "content")) ==>
      r[..|r| - |text|] == ToJsString(Member(current, "content")) + "\n\n"
    ensures !Truthy(Member(current, "content")) ==> r == text
  {
    if Truthy(current) && Truthy(Member(current, "content")) then
      ToJsString(Member(current, "content")) + "\n\n" + text
    else
      text
  }

  /** `Object.keys(allMemos).map(...)`: one item per domain, with
      `updatedAt` falling back to `createdAt`. */
  function MemoList(memos: Fields): (r: seq<MemoItem>)
    ensures |r| == |memos|
    ensures forall i :: 0 <= i < |r| ==>
      var rec := Get(memos, memos[i].0);
      && r[i].domain == memos[i].0
      && r[i].content == Member(rec, "content")
      && r[i].url == Member(rec, "url")
      && r[i].title == Member(rec, "title")
      && r[i].createdAt == Member(rec, "createdAt")
      && (Truthy(Member(rec, "updatedAt")) ==> r[i].updatedAt == Member(rec, "updatedAt"))
      && (!Truthy(Member(rec, "updatedAt")) ==> r[i].updatedAt == Member(rec, "createdAt"))
  {
    seq(|memos|, i requires 0 <= i < |memos| =>
      var domain := memos[i].0;
      var rec := Get(memos, domain);
      MemoItem(domain, Member(rec, "content"), Member(rec, "url"), Member(rec, "title"),
               Or(Member(rec, "updatedAt"), Member(rec, "createdAt")), Member(rec, "createdAt")))
  }

  /** Assigning a property of a primitive record throws in class code. */
  const NotAnObject := "TypeError"

  class MemoManager {
    const storage: StorageManager
    /** `window.location.hostname`, `window.location.href` and `document.title`. */
    const domain: string
    const href: string
    const title: string

    constructor (storage: StorageManager, domain: string, href: string, title: string)
      ensures this.storage == storage && this.domain == domain && this.href == href && this.title == title
    {
      this.storage := storage;
      this.domain := domain;
      this.href := href;
      this.title := title;
    }

    /** `loadCurrentMemo()` */
    method LoadCurrentMemo() returns (r: Result<Value, string>)
      ensures r.Success? && Truthy(Get(MemosIn(storage.area.items), domain)) ==>
        r.value == Get(MemosIn(storage.area.items), domain)
      ensures r.Success? && !Truthy(Get(MemosIn(storage.area.items), domain)) ==> r.value == Null
    {
      r := storage.GetMemo(domain);
    }

    /** `saveMemo(content, options)` */
    method SaveMemo(content: string, options: Fields, createdNow: string, savedAt: string) returns (r: Result<Value, string>)
      modifies storage.area
      ensures r.Success? ==>
        var data := MergedRecord(CurrentMemo(old(storage.area.items), domain), content, options, createdNow, href, title);
        r.value == Obj(Stamped(data, savedAt)) && storage.area.items == SavedState(old(storage.area.items), domain, data, savedAt)
      ensures r.Failure? ==> storage.area.items == old(storage.area.items)
    {
      var current := LoadCurrentMemo();
      if current.Failure? {
        return Failure(current.error);
      }
      var currentMemo := Or(current.value, Obj([]));
      assert currentMemo == CurrentMemo(storage.area.items, domain);
      var memoData := MergedRecord(currentMemo, content, options, createdNow, href, title);
      r := storage.SaveMemo(domain, memoData, savedAt);
    }

    /** The shared shape of `updateMemoPosition`, `updateFloatingIconPosition`
        and `setMemoVisibility`: `null` and no write without a memo,
        otherwise the loaded record with one field replaced, saved back. */
    method SetMemoField(field: string, v: Value, now: string) returns (r: Result<Value, string>)
      modifies storage.area
      ensures var rec := Get(MemosIn(old(storage.area.items)), domain);
        && (!Truthy(rec) ==> storage.area.items == old(storage.area.items))
        && (r.Success? && !Truthy(rec) ==> r.value == Null)
        && (r.Success? && Truthy(rec) ==>
              rec.Obj?
              && r.value == Obj(Stamped(Put(rec.fields, field, v), now))
              && storage.area.items == SavedState(old(storage.area.items), domain, Put(rec.fields, field, v), now))
      ensures r.Failure? ==> storage.area.items == old(storage.area.items)
    {
      var memo := LoadCurrentMemo();
      if memo.Failure? {
        return Failure(memo.error);
      }
      if !Truthy(memo.value) {
        return Success(Null);
      }
      if !memo.value.Obj? {
        return Failure(NotAnObject);
      }
      r := storage.SaveMemo(domain, Put(memo.value.fields, field, v), now);
    }

    /** `updateMemoPosition(position)` */
    method UpdateMemoPosition(position: Value, now: string) returns (r: Result<Value, string>)
      modifies storage.area
      ensures var rec := Get(MemosIn(old(storage.area.items)), domain);
        && (!Truthy(rec) ==> storage.area.items == old(storage.area.items))
        && (r.Success? && !Truthy(rec) ==> r.value == Null)
        && (r.Success? && Truthy(rec) ==>
              && rec.Obj?
              && r.value == Obj(Stamped(Put(rec.fields, "position", position), now))
              && storage.area.items == SavedState(old(storage.area.items), domain, Put(rec.fields, "position", position), now))
      ensures r.Failure? ==> storage.area.items == old(storage.area.items)
    {
      r := SetMemoField("position", position, now);
    }

    /** `updateFloatingIconPosition(position)` */
    method UpdateFloatingIconPosition(position: Value, now: string) returns (r: Result<Value, string>)
      modifies storage.area
      ensures var rec := Get(MemosIn(old(storage.area.items)), domain);
        && (!Truthy(rec) ==> storage.area.items == old(storage.area.items))
        && (r.Success? && !Truthy(rec) ==> r.value == Null)
        && (r.Success? && Truthy(rec) ==>
              && rec.Obj?
              && r.value == Obj(Stamped(Put(rec.fields, "floatingIconPosition", position), now))
              && storage.area.items == SavedState(old(storage.area.items), domain, Put(rec.fields, "floatingIconPosition", position), now))
      ensures r.Failure? ==> storage.area.items == old(storage.area.items)
    {
      r := SetMemoField("floatingIconPosition", position, now);
    }

    /** `getFloatingIconPosition()` */
    method GetFloatingIconPosition() returns (r: Result<Value, string>)
      ensures r.Success? && Truthy(Get(MemosIn(storage.area.items), domain)) ==>
        r.value == Member(Get(MemosIn(storage.area.items), domain), "floatingIconPosition")
      ensures r.Success? && !Truthy(Get(MemosIn(storage.area.items), domain)) ==> r.value == Null
    {
      var memo := LoadCurrentMemo();
      if memo.Failure? {
        return Failure(memo.error);
      }
      r := Success(if Truthy(memo.value) then Member(memo.value, "floatingIconPosition") else Null);
    }

    /** `setMemoVisibility(isVisible)` */
    method SetMemoVisibility(isVisible: bool, now: string) returns (r: Result<Value, string>)
      modifies storage.area
      ensures var rec := Get(MemosIn(old(storage.area.items)), domain);
        && (!Truthy(rec) ==> storage.area.items == old(storage.area.items))
        && (r.Success? && !Truthy(rec) ==> r.value == Null)
        && (r.Success? && Truthy(rec) ==>
              && rec.Obj?
              && r.value == Obj(Stamped(Put(rec.fields, "isVisible", Bool(isVisible)), now))
              && storage.area.items == SavedState(old(storage.area.items), domain, Put(rec.fields, "isVisible", Bool(isVisible)), now))
      ensures r.Failure? ==> storage.area.items == old(storage.area.items)
    {
      r := SetMemoField("isVisible", Bool(isVisible), now);
    }

    /** `deleteCurrentMemo()` */
    method DeleteCurrentMemo() returns (r: Result<bool, string>)
      modifies storage.area
      ensures r.Failure? ==> storage.area.items == old(storage.area.items)
      ensures r.Success? ==> r.value == Truthy(Get(MemosIn(old(storage.area.items)), domain))
      ensures r == Success(false) ==> storage.area.items == old(storage.area.items)
      ensures r == Success(true) ==> storage.area.items == DeletedState(old(storage.area.items), domain)
    {
      r := storage.DeleteMemo(domain);
    }

    /** `addSelectionToMemo(selectedText)` */
    method AddSelectionToMemo(selectedText: string, createdNow: string, savedAt: string) returns (r: Result<Value, string>)
      modifies storage.area
      ensures selectedText == [] ==> r == Success(Null) && storage.area.items == old(storage.area.items)
      ensures r.Success? && selectedText != [] ==>
        var rec := Get(MemosIn(old(storage.area.items)), domain);
        var data := MergedRecord(CurrentMemo(old(storage.area.items), domain), AppendedContent(rec, selectedText), [], createdNow, href, title);
        r.value == Obj(Stamped(data, savedAt)) && storage.area.items == SavedState(old(storage.area.items), domain, data, savedAt)
      ensures r.Failure? ==> storage.area.items == old(storage.area.items)
    {
      if selectedText == [] {
        return Success(Null);
      }
      var memo := LoadCurrentMemo();
      if memo.Failure? {
        return Failure(memo.error);
      }
      var content := AppendedContent(memo.value, selectedText);
      assert content == AppendedContent(Get(MemosIn(storage.area.items), domain), selectedText);
      r := SaveMemo(content, [], createdNow, savedAt);
    }

    /** `getAllMemosList()` */
    method GetAllMemosList() returns (r: Result<seq<MemoItem>, string>)
      ensures r.Success? ==> r.value == MemoList(MemosIn(storage.area.items))
    {
      var all := storage.GetAllMemos();
      if all.Failure? {
        return Failure(all.error);
      }
      r := Success(MemoList(all.value));
    }
  }

  /** What `saveMemo(content)` leaves stored for the page's domain: the new
      content, `updatedAt` from the storage layer's own clock read,
      `createdAt` kept from the current record or else the manager's
      earlier clock read, no `floatingIconPosition`, and every other domain
      untouched. The two clock reads are separate parameters, since the
      storage layer reads the clock again after an awaited load. */
  lemma SavedMemoRecord(items: map<string, Value>, domain: string, content: string, options: Fields,
                        createdNow: string, savedAt: string, href: string, title: string)
    ensures var current := CurrentMemo(items, domain);
      var after := SavedState(items, domain, MergedRecord(current, content, options, createdNow, href, title), savedAt);
      var stored := Get(MemosIn(after), domain);
      && stored.Obj?
      && Get(stored.fields, "content") == Str(content)
      && Get(stored.fields, "updatedAt") == Str(savedAt)
      && (Truthy(Member(current, "createdAt")) ==> Get(stored.fields, "createdAt") == Member(current, "createdAt"))
      && (!Truthy(Member(current, "createdAt")) ==> Get(stored.fields, "createdAt") == Str(createdNow))
      && Get(stored.fields, "floatingIconPosition") == Undefined
      && (forall d :: d != domain ==> Get(MemosIn(after), d) == Get(MemosIn(items), d))
  {
    var current := CurrentMemo(items, domain);
    var data := MergedRecord(current, content, options, createdNow, href, title);
    SaveMemoFrame(items, domain, data, savedAt);
    var stored := Stamped(data, savedAt);
    assert Get(stored, "content") == Get(data, "content");
    assert Get(stored, "createdAt") == Get(data, "createdAt");
    assert Get(stored, "floatingIconPosition") == Get(data, "floatingIconPosition");
  }

  /** A content-only save (no options) of a hidden memo makes it visible. */
  lemma ContentSaveShowsHiddenMemo(current: Value, content: string, now: string, href: string, title: string)
    requires Member(current, "isVisible") == Bool(false)
    ensures Get(MergedRecord(current, content, [], now, href, title), "isVisible") == Bool(true)
  {
  }

  /** The single-field updates change that field and nothing else but
      `updatedAt`. */
  lemma SetMemoFieldOnly(rec: Fields, field: string, v: Value, now: string)
    requires field != "updatedAt"
    ensures Get(Stamped(Put(rec, field, v), now), field) == v
    ensures forall k :: k != field && k != "updatedAt" ==> Get(Stamped(Put(rec, field, v), now), k) == Get(rec, k)
  {
  }
}

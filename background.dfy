/** The old background page (`background.js`): request handlers over the
    `memos` and `templates` objects of `chrome.storage.local`, and the
    quick-add flag `enableQuickAdd`. */
module LegacyBackground {
  import opened Wrappers
  import opened Json
  import opened Chrome
  import opened DataStorage

  const MemoNotFound := "Memo not found"
  const TemplateNotFound := "Template not found"

  /** The `action` of a message and the fields its handler reads. */
  datatype Request =
    | SaveMemo(domain: string, content: Value)
    | GetMemo(domain: string)
    | UpdateMemoVisibility(domain: string, isVisible: Value)
    | GetAllMemos
    | DeleteMemo(domain: string)
    | SaveTemplate(name: string, content: Value)
    | GetTemplate(name: string)
    | GetAllTemplates
    | DeleteTemplate(name: string)
    | Unknown(action: string)

  /** What `sendResponse` is called with. */
  datatype Response =
    | Done                   // {success: true}
    | NotFound(error: string) // {success: false, error}
    | Data(data: Value)       // {data}

  /** The record `saveMemo` writes. */
  function MemoRecord(content: Value, now: int): (r: Value)
    ensures Member(r, "content") == content
    ensures Member(r, "isVisible") == Bool(true)
    ensures Member(r, "lastEdited") == Num(now)
    ensures Keys(r.fields) == ["content", "isVisible", "lastEdited"]
  {
    var fs := [("content", content), ("isVisible", Bool(true)), ("lastEdited", Num(now))];
    GetAt(fs, 1, "isVisible");
    GetAt(fs, 2, "lastEdited");
    Obj(fs)
  }

  /** The record `saveTemplate` writes: any other field, `order` included,
      is gone. */
  function TemplateRecord(content: Value, now: int): (r: Value)
    ensures Member(r, "content") == content
    ensures Member(r, "createdAt") == Num(now)
    ensures Keys(r.fields) == ["content", "createdAt"]
  {
    var fs := [("content", content), ("createdAt", Num(now))];
    GetAt(fs, 1, "createdAt");
    Obj(fs)
  }

  /** `rec.isVisible = v`: an object gets the field, every other field
      kept; on a primitive the assignment does nothing. */
  function WithVisibility(rec: Value, v: Value): (r: Value)
    ensures rec.Obj? ==> Member(r, "isVisible") == v
    ensures forall f :: f != "isVisible" ==> Member(r, f) == Member(rec, f)
    ensures !rec.Obj? ==> r == rec
    ensures Truthy(rec) ==> Truthy(r)
  {
    if rec.Obj? then Obj(Put(rec.fields, "isVisible", v)) else rec
  }

  /** `memos[d] || null` */
  function MemoResponse(items: map<string, Value>, d: string): (r: Value)
    ensures Truthy(Get(MemosIn(items), d)) ==> r == Get(MemosIn(items), d)
    ensures !Truthy(Get(MemosIn(items), d)) ==> r == Null
  {
    Or(Get(MemosIn(items), d), Null)
  }

  /** `templates[name] || null` */
  function TemplateResponse(items: map<string, Value>, name: string): (r: Value)
    ensures Truthy(Get(TemplatesIn(items), name)) ==> r == Get(TemplatesIn(items), name)
    ensures !Truthy(Get(TemplatesIn(items), name)) ==> r == Null
  {
    Or(Get(TemplatesIn(items), name), Null)
  }

  /** The state the `toggle-quick-add` command stores, as written:
      `!result.enableQuickAdd`. */
  function ToggledAsWritten(stored: Value): (r: bool)
    ensures r <==> !Truthy(stored)
  {
    !Truthy(stored)
  }

  /** The state the command evidently means to store: the opposite of what
      startup shows. */
  function ToggledCorrected(stored: Value): (r: bool)
    ensures r <==> stored == Bool(false)
  {
    stored == Bool(false)
  }

  /** The background page with its storage area. */
  class Background {
    const area: LocalArea

    constructor (area: LocalArea)
      ensures this.area == area
    {
      this.area := area;
    }

    /** `saveMemo`: the domain's record replaced by a fresh visible one. */
    method HandleSaveMemo(domain: string, content: Value, now: int) returns (response: Response)
      modifies area
      ensures response == Done
      ensures area.items == old(area.items)["memos" := Obj(Put(MemosIn(old(area.items)), domain, MemoRecord(content, now)))]
    {
      var stored := area.Get("memos");
      var memos := FieldsOf(stored);
      memos := Put(memos, domain, MemoRecord(content, now));
      area.Set("memos", Obj(memos));
      response := Done;
    }

    /** `updateMemoVisibility`: only an existing memo changes, and only
        its `isVisible`. */
    method HandleUpdateMemoVisibility(domain: string, isVisible: Value) returns (response: Response)
      modifies area
      ensures Truthy(Get(MemosIn(old(area.items)), domain)) ==>
        && response == Done
        && area.items == old(area.items)["memos" :=
             Obj(Put(MemosIn(old(area.items)), domain, WithVisibility(Get(MemosIn(old(area.items)), domain), isVisible)))]
      ensures !Truthy(Get(MemosIn(old(area.items)), domain)) ==>
        response == NotFound(MemoNotFound) && area.items == old(area.items)
    {
      var stored := area.Get("memos");
      var memos := FieldsOf(stored);
      if Truthy(Get(memos, domain)) {
        memos := Put(memos, domain, WithVisibility(Get(memos, domain), isVisible));
        area.Set("memos", Obj(memos));
        response := Done;
      } else {
        response := NotFound(MemoNotFound);
      }
    }

    /** `deleteMemo`: an existing memo is removed; a missing one is
        reported without a write. */
    method HandleDeleteMemo(domain: string) returns (response: Response)
      modifies area
      ensures Truthy(Get(MemosIn(old(area.items)), domain)) ==>
        response == Done && area.items == old(area.items)["memos" := Obj(Delete(MemosIn(old(area.items)), domain))]
      ensures !Truthy(Get(MemosIn(old(area.items)), domain)) ==>
        response == NotFound(MemoNotFound) && area.items == old(area.items)
    {
      var stored := area.Get("memos");
      var memos := FieldsOf(stored);
      if Truthy(Get(memos, domain)) {
        memos := Delete(memos, domain);
        area.Set("memos", Obj(memos));
        response := Done;
      } else {
        response := NotFound(MemoNotFound);
      }
    }

    /** `saveTemplate`: the name's record replaced by `{content, createdAt}`. */
    method HandleSaveTemplate(name: string, content: Value, now: int) returns (response: Response)
      modifies area
      ensures response == Done
      ensures area.items == old(area.items)["templates" := Obj(Put(TemplatesIn(old(area.items)), name, TemplateRecord(content, now)))]
    {
      var stored := area.Get("templates");
      var templates := FieldsOf(stored);
      templates := Put(templates, name, TemplateRecord(content, now));
      area.Set("templates", Obj(templates));
      response := Done;
    }

    /** `deleteTemplate`: an existing template is removed; a missing one
        is reported without a write. */
    method HandleDeleteTemplate(name: string) returns (response: Response)
      modifies area
      ensures Truthy(Get(TemplatesIn(old(area.items)), name)) ==>
        response == Done && area.items == old(area.items)["templates" := Obj(Delete(TemplatesIn(old(area.items)), name))]
      ensures !Truthy(Get(TemplatesIn(old(area.items)), name)) ==>
        response == NotFound(TemplateNotFound) && area.items == old(area.items)
    {
      var stored := area.Get("templates");
      var templates := FieldsOf(stored);
      if Truthy(Get(templates, name)) {
        templates := Delete(templates, name);
        area.Set("templates", Obj(templates));
        response := Done;
      } else {
        response := NotFound(TemplateNotFound);
      }
    }

    /** The `onMessage` listener: reads answer from the store and write
        nothing; an unknown action gets no response at all. */
    method OnMessage(message: Request, now: int) returns (response: Option<Response>)
      modifies area
      ensures message.GetMemo? ==> response == Some(Data(MemoResponse(old(area.items), message.domain))) && area.items == old(area.items)
      ensures message.GetAllMemos? ==> response == Some(Data(Or(At(old(area.items), "memos"), Obj([])))) && area.items == old(area.items)
      ensures message.GetTemplate? ==> response == Some(Data(TemplateResponse(old(area.items), message.name))) && area.items == old(area.items)
      ensures message.GetAllTemplates? ==> response == Some(Data(Or(At(old(area.items), "templates"), Obj([])))) && area.items == old(area.items)
      ensures message.Unknown? ==> response == None && area.items == old(area.items)
      ensures message.SaveMemo? ==>
        && response == Some(Done)
        && area.items == old(area.items)["memos" := Obj(Put(MemosIn(old(area.items)), message.domain, MemoRecord(message.content, now)))]
      ensures message.SaveTemplate? ==>
        && response == Some(Done)
        && area.items == old(area.items)["templates" := Obj(Put(TemplatesIn(old(area.items)), message.name, TemplateRecord(message.content, now)))]
      ensures message.UpdateMemoVisibility? ==>
        var rec := Get(MemosIn(old(area.items)), message.domain);
        && (Truthy(rec) ==>
              response == Some(Done)
              && area.items == old(area.items)["memos" := Obj(Put(MemosIn(old(area.items)), message.domain, WithVisibility(rec, message.isVisible)))])
        && (!Truthy(rec) ==> response == Some(NotFound(MemoNotFound)) && area.items == old(area.items))
      ensures message.DeleteMemo? ==>
        && (Truthy(Get(MemosIn(old(area.items)), message.domain)) ==>
              response == Some(Done) && area.items == old(area.items)["memos" := Obj(Delete(MemosIn(old(area.items)), message.domain))])
        && (!Truthy(Get(MemosIn(old(area.items)), message.domain)) ==>
              response == Some(NotFound(MemoNotFound)) && area.items == old(area.items))
      ensures message.DeleteTemplate? ==>
        && (Truthy(Get(TemplatesIn(old(area.items)), message.name)) ==>
              response == Some(Done) && area.items == old(area.items)["templates" := Obj(Delete(TemplatesIn(old(area.items)), message.name))])
        && (!Truthy(Get(TemplatesIn(old(area.items)), message.name)) ==>
              response == Some(NotFound(TemplateNotFound)) && area.items == old(area.items))
    {
      match message {
        case SaveMemo(domain, content) =>
          var r := HandleSaveMemo(domain, content, now);
          response := Some(r);
        case GetMemo(domain) =>
          var stored := area.Get("memos");
          response := Some(Data(Or(Get(FieldsOf(stored), domain), Null)));
        case UpdateMemoVisibility(domain, isVisible) =>
          var r := HandleUpdateMemoVisibility(domain, isVisible);
          response := Some(r);
        case GetAllMemos =>
          var stored := area.Get("memos");
          response := Some(Data(Or(stored, Obj([]))));
        case DeleteMemo(domain) =>
          var r := HandleDeleteMemo(domain);
          response := Some(r);
        case SaveTemplate(name, content) =>
          var r := HandleSaveTemplate(name, content, now);
          response := Some(r);
        case GetTemplate(name) =>
          var stored := area.Get("templates");
          response := Some(Data(Or(Get(FieldsOf(stored), name), Null)));
        case GetAllTemplates =>
          var stored := area.Get("templates");
          response := Some(Data(Or(stored, Obj([]))));
        case DeleteTemplate(name) =>
          var r := HandleDeleteTemplate(name);
          response := Some(r);
        case Unknown(_) =>
          response := None;
      }
    }

    /** `onStartup`: the checkbox state restored from the flag. */
    method OnStartup() returns (checked: bool)
      ensures checked == QuickAddEnabled(area.items)
    {
      var stored := area.Get("enableQuickAdd");
      checked := stored != Bool(false);
    }

    /** Clicking the `toggleQuickAdd` checkbox stores its new state. */
    method OnMenuToggle(checked: bool)
      modifies area
      ensures area.items == old(area.items)["enableQuickAdd" := Bool(checked)]
    {
      area.Set("enableQuickAdd", Bool(checked));
    }

    /** The `toggle-quick-add` command as written. */
    method OnToggleCommand() returns (newState: bool)
      modifies area
      ensures newState == ToggledAsWritten(At(old(area.items), "enableQuickAdd"))
      ensures area.items == old(area.items)["enableQuickAdd" := Bool(newState)]
    {
      var stored := area.Get("enableQuickAdd");
      newState := !Truthy(stored);
      area.Set("enableQuickAdd", Bool(newState));
    }

    /** The `toggle-quick-add` command flipping the state startup shows. */
    method OnToggleCommandCorrected() returns (newState: bool)
      modifies area
      ensures newState == ToggledCorrected(At(old(area.items), "enableQuickAdd"))
      ensures area.items == old(area.items)["enableQuickAdd" := Bool(newState)]
    {
      var stored := area.Get("enableQuickAdd");
      newState := stored == Bool(false);
      area.Set("enableQuickAdd", Bool(newState));
    }
  }

  /** After `saveMemo`, `getMemo` answers the saved record for that domain
      and what it answered before for every other one. */
  lemma SaveThenGetMemo(items: map<string, Value>, domain: string, content: Value, now: int, other: string)
    ensures var after := items["memos" := Obj(Put(MemosIn(items), domain, MemoRecord(content, now)))];
      && MemoResponse(after, domain) == MemoRecord(content, now)
      && (other != domain ==> MemoResponse(after, other) == MemoResponse(items, other))
  {
    var after := items["memos" := Obj(Put(MemosIn(items), domain, MemoRecord(content, now)))];
    assert MemosIn(after) == Put(MemosIn(items), domain, MemoRecord(content, now));
  }

  /** After `deleteMemo` of an existing memo, `getMemo` answers `null`
      for it and what it answered before for every other domain. */
  lemma DeleteThenGetMemo(items: map<string, Value>, domain: string, other: string)
    ensures var after := items["memos" := Obj(Delete(MemosIn(items), domain))];
      && MemoResponse(after, domain) == Null
      && (other != domain ==> MemoResponse(after, other) == MemoResponse(items, other))
  {
    var after := items["memos" := Obj(Delete(MemosIn(items), domain))];
    assert MemosIn(after) == Delete(MemosIn(items), domain);
  }

  /** Startup treats an unset flag as enabled, yet the first toggle
      command from that state stores `true` again: the toggle does not
      change what the user sees. */
  lemma ToggleFromUnsetDoesNotToggle(items: map<string, Value>)
    requires "enableQuickAdd" !in items
    ensures QuickAddEnabled(items)
    ensures QuickAddEnabled(items["enableQuickAdd" := Bool(ToggledAsWritten(At(items, "enableQuickAdd")))])
  {
  }

  /** The corrected toggle always flips the state startup shows. */
  lemma CorrectedToggleFlips(items: map<string, Value>)
    ensures QuickAddEnabled(items["enableQuickAdd" := Bool(ToggledCorrected(At(items, "enableQuickAdd")))]) == !QuickAddEnabled(items)
  {
  }
}

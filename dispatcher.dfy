/** The request listener of the newer background script
    (`src/background.js`): it checks each request and hands the memo
    requests to the `StorageManager`, turning every failure into a
    `{success: false, error}` reply. */
module RequestDispatch {
  import opened Wrappers
  import opened Json
  import opened Chrome
  import opened DataStorage

  const EmptyDomain := "域名不能为空"
  const EmptyDomainOrData := "域名或数据不能为空"
  const NotInitialized := "StorageManager未初始化"
  const UnknownAction := "未知操作"
  const GetFailed := "获取备忘录失败"
  const SaveFailed := "保存备忘录失败"
  const DeleteFailed := "删除备忘录失败"

  /** A message by its `action`, with the fields the listener reads. */
  datatype Request =
    | GetMemo(domain: Value)
    | SaveMemo(domain: Value, data: Value)
    | DeleteMemo(domain: Value)
    | SetContextMenu
    | Other(action: string)

  /** The object passed to `sendResponse`. */
  datatype Reply =
    | Failed(error: string)          // {success: false, error}
    | Succeeded                      // {success: true}
    | WithMemo(memo: Value)          // {success: true, memo}
    | WithData(data: Value)          // {success: true, data}
    | Deleted(success: bool)         // {success: result}

  predicate IsMemoRequest(message: Request) {
    message.GetMemo? || message.SaveMemo? || message.DeleteMemo?
  }

  /** The checks made before storage is touched: missing fields, then a
      storage manager that is not loaded yet, and an unknown action. */
  function Rejection(message: Request, hasManager: bool): (e: Option<string>)
    ensures e.None? <==>
      || message.SetContextMenu?
      || (IsMemoRequest(message) && Truthy(message.domain) && (message.SaveMemo? ==> Truthy(message.data)) && hasManager)
    ensures message.Other? <==> e == Some(UnknownAction)
    ensures IsMemoRequest(message) && !Truthy(message.domain) ==> e == Some(if message.SaveMemo? then EmptyDomainOrData else EmptyDomain)
    ensures message.SaveMemo? && !Truthy(message.data) ==> e == Some(EmptyDomainOrData)
    ensures IsMemoRequest(message) && e.Some? && e.value != NotInitialized ==> !Truthy(message.domain) || (message.SaveMemo? && !Truthy(message.data))
  {
    match message
    case GetMemo(domain) =>
      if !Truthy(domain) then Some(EmptyDomain) else if !hasManager then Some(NotInitialized) else None
    case SaveMemo(domain, data) =>
      if !Truthy(domain) || !Truthy(data) then Some(EmptyDomainOrData) else if !hasManager then Some(NotInitialized) else None
    case DeleteMemo(domain) =>
      if !Truthy(domain) then Some(EmptyDomain) else if !hasManager then Some(NotInitialized) else None
    case SetContextMenu => None
    case Other(_) => Some(UnknownAction)
  }

  /** `error.message || fallback` */
  function ErrorText(message: string, fallback: string): (r: string)
    ensures r != [] || fallback == []
    ensures message != [] ==> r == message
    ensures message == [] ==> r == fallback
  {
    if message != [] then message else fallback
  }

  /** The listener, with the storage manager it found (or `null` while the
      module is still loading). */
  class Dispatcher {
    const manager: StorageManager?

    constructor (manager: StorageManager?)
      ensures this.manager == manager
    {
      this.manager := manager;
    }

    /** One message, one reply: a rejected request writes nothing, a
        failing storage call writes nothing and says why. */
    method OnMessage(message: Request, now: string) returns (reply: Reply)
      modifies if manager != null then {manager.area} else {}
      ensures Rejection(message, manager != null).Some? ==>
        reply == Failed(Rejection(message, manager != null).value) && (manager != null ==> unchanged(manager.area))
      ensures message.SetContextMenu? ==> reply == Succeeded && (manager != null ==> unchanged(manager.area))
      ensures Rejection(message, manager != null).None? && message.GetMemo? ==>
        && manager != null && unchanged(manager.area)
        && (reply.WithMemo? ==> reply.memo == Or(Get(MemosIn(manager.area.items), ToJsString(message.domain)), Null))
        && (reply.WithMemo? || reply.Failed?)
      ensures Rejection(message, manager != null).None? && message.SaveMemo? ==>
        && manager != null
        && (reply.WithData? ==>
              && reply.data == Obj(Stamped(FieldsOf(message.data), now))
              && manager.area.items == SavedState(old(manager.area.items), ToJsString(message.domain), FieldsOf(message.data), now))
        && (reply.Failed? ==> manager.area.items == old(manager.area.items))
        && (reply.WithData? || reply.Failed?)
      ensures Rejection(message, manager != null).None? && message.DeleteMemo? ==>
        && manager != null
        && (reply.Deleted? ==> reply.success == Truthy(Get(MemosIn(old(manager.area.items)), ToJsString(message.domain))))
        && (reply == Deleted(false) || reply.Failed? ==> manager.area.items == old(manager.area.items))
        && (reply == Deleted(true) ==> manager.area.items == DeletedState(old(manager.area.items), ToJsString(message.domain)))
        && (reply.Deleted? || reply.Failed?)
    {
      var e := Rejection(message, manager != null);
      if e.Some? {
        return Failed(e.value);
      }
      match message {
        case GetMemo(domain) =>
          var r := manager.GetMemo(ToJsString(domain));
          if r.Success? {
            reply := WithMemo(r.value);
          } else {
            reply := Failed(ErrorText(r.error, GetFailed));
          }
        case SaveMemo(domain, data) =>
          var r := manager.SaveMemo(ToJsString(domain), FieldsOf(data), now);
          if r.Success? {
            reply := WithData(r.value);
          } else {
            reply := Failed(ErrorText(r.error, SaveFailed));
          }
        case DeleteMemo(domain) =>
          var r := manager.DeleteMemo(ToJsString(domain));
          if r.Success? {
            reply := Deleted(r.value);
          } else {
            reply := Failed(ErrorText(r.error, DeleteFailed));
          }
        case SetContextMenu =>
          reply := Succeeded;
        case Other(_) =>
          assert false;
      }
    }
  }

  /** A memo request is never rejected as unknown, and a request with its
      fields present is rejected only while storage is not loaded. */
  lemma RejectionReasons(message: Request, hasManager: bool)
    requires IsMemoRequest(message)
    ensures Rejection(message, hasManager) != Some(UnknownAction)
    ensures Truthy(message.domain) && (message.SaveMemo? ==> Truthy(message.data)) ==>
      (Rejection(message, hasManager).Some? <==> !hasManager)
  {
  }
}

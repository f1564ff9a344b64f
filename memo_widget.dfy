/** The floating memo widget of `src/ui/components/memo.js`: whether its
    container exists, the two state flags `isVisible` and `isMinimized`,
    and the visibility it writes back through the memo business layer. */
module MemoWidget {
  import opened Wrappers
  import opened Json
  import opened Chrome
  import opened DataStorage
  import opened CoreMemos

  /** The synced store once `setMemoVisibility(visible)` has succeeded: the
      page's record with `isVisible` replaced, or nothing written when the
      page has no memo. */
  function VisibilityStored(items: map<string, Value>, domain: string, visible: bool, now: string): (r: map<string, Value>)
    ensures var rec := Get(MemosIn(items), domain);
      && (Truthy(rec) && rec.Obj? ==> Member(Get(MemosIn(r), domain), "isVisible") == Bool(visible))
      && (!Truthy(rec) || !rec.Obj? ==> r == items)
    ensures forall d :: d != domain ==> Get(MemosIn(r), d) == Get(MemosIn(items), d)
    ensures forall k :: k != "memos" ==> At(r, k) == At(items, k)
  {
    var rec := Get(MemosIn(items), domain);
    if Truthy(rec) && rec.Obj? then
      var data := Put(rec.fields, "isVisible", Bool(visible));
      SaveMemoFrame(items, domain, data, now);
      SavedState(items, domain, data, now)
    else items
  }

  /** The widget of one page. `hasContainer` says whether `createMemoUI`
      has built the container; every transition is a no-op before that. */
  class MemoComponent {
    const manager: MemoManager
    var hasContainer: bool
    var isVisible: bool
    var isMinimized: bool

    /** A minimized widget counts as visible: only its icon shows. */
    ghost predicate Valid()
      reads this
    {
      isMinimized ==> isVisible
    }

    constructor (manager: MemoManager)
      ensures this.manager == manager
      ensures !hasContainer && !isVisible && !isMinimized
      ensures Valid()
    {
      this.manager := manager;
      hasContainer := false;
      isVisible := false;
      isMinimized := false;
    }

    /** `show()`: visible and not minimized, and the page's memo is marked
        visible in storage (the result is that call's outcome). */
    method Show(now: string) returns (persisted: Option<Result<Value, string>>)
      requires Valid()
      modifies this, manager.storage.area
      ensures Valid() && hasContainer == old(hasContainer)
      ensures !old(hasContainer) ==>
        && persisted.None? && isVisible == old(isVisible) && isMinimized == old(isMinimized)
        && manager.storage.area.items == old(manager.storage.area.items)
      ensures old(hasContainer) ==>
        && isVisible && !isMinimized && persisted.Some?
        && (persisted.value.Success? ==>
              manager.storage.area.items == VisibilityStored(old(manager.storage.area.items), manager.domain, true, now))
        && (persisted.value.Failure? ==> manager.storage.area.items == old(manager.storage.area.items))
    {
      if !hasContainer {
        return None;
      }
      isVisible := true;
      isMinimized := false;
      var r := manager.SetMemoVisibility(true, now);
      persisted := Some(r);
    }

    /** `hide()`: neither visible nor minimized, and the page's memo is
        marked hidden in storage. */
    method Hide(now: string) returns (persisted: Option<Result<Value, string>>)
      requires Valid()
      modifies this, manager.storage.area
      ensures Valid() && hasContainer == old(hasContainer)
      ensures !old(hasContainer) ==>
        && persisted.None? && isVisible == old(isVisible) && isMinimized == old(isMinimized)
        && manager.storage.area.items == old(manager.storage.area.items)
      ensures old(hasContainer) ==>
        && !isVisible && !isMinimized && persisted.Some?
        && (persisted.value.Success? ==>
              manager.storage.area.items == VisibilityStored(old(manager.storage.area.items), manager.domain, false, now))
        && (persisted.value.Failure? ==> manager.storage.area.items == old(manager.storage.area.items))
    {
      if !hasContainer {
        return None;
      }
      isVisible := false;
      isMinimized := false;
      var r := manager.SetMemoVisibility(false, now);
      persisted := Some(r);
    }

    /** `minimize()`: only the floating icon shows; nothing is stored. */
    method Minimize()
      requires Valid()
      modifies this
      ensures Valid() && hasContainer == old(hasContainer)
      ensures !old(hasContainer) ==> isVisible == old(isVisible) && isMinimized == old(isMinimized)
      ensures old(hasContainer) ==> isVisible && isMinimized
    {
      if !hasContainer {
        return;
      }
      isMinimized := true;
      isVisible := true;
    }

    /** `restore()`: a minimized widget opens again; in any other state
        nothing changes. The position reset that the viewport check may
        start is not part of this model. */
    method Restore()
      requires Valid()
      modifies this
      ensures Valid() && hasContainer == old(hasContainer) && isVisible == old(isVisible)
      ensures old(hasContainer) && old(isMinimized) ==> !isMinimized
      ensures !old(hasContainer) || !old(isMinimized) ==> isMinimized == old(isMinimized)
    {
      if !hasContainer || !isMinimized {
        return;
      }
      isMinimized := false;
    }

    /** `toggle()`: a minimized widget is restored, an open one hidden and a
        hidden one shown; the result is the storage write, if one was made. */
    method Toggle(now: string) returns (persisted: Option<Result<Value, string>>)
      requires Valid()
      modifies this, manager.storage.area
      ensures Valid() && hasContainer == old(hasContainer)
      ensures !old(hasContainer) ==>
        && isVisible == old(isVisible) && isMinimized == old(isMinimized) && persisted.None?
        && manager.storage.area.items == old(manager.storage.area.items)
      ensures old(hasContainer) && old(isMinimized) ==>
        && isVisible && !isMinimized && persisted.None?
        && manager.storage.area.items == old(manager.storage.area.items)
      ensures old(hasContainer) && old(isVisible) && !old(isMinimized) ==>
        && !isVisible && !isMinimized && persisted.Some?
        && (persisted.value.Success? ==>
              manager.storage.area.items == VisibilityStored(old(manager.storage.area.items), manager.domain, false, now))
        && (persisted.value.Failure? ==> manager.storage.area.items == old(manager.storage.area.items))
      ensures old(hasContainer) && !old(isVisible) ==>
        && isVisible && !isMinimized && persisted.Some?
        && (persisted.value.Success? ==>
              manager.storage.area.items == VisibilityStored(old(manager.storage.area.items), manager.domain, true, now))
        && (persisted.value.Failure? ==> manager.storage.area.items == old(manager.storage.area.items))
    {
      if isVisible {
        if isMinimized {
          Restore();
          persisted := None;
        } else {
          persisted := Hide(now);
        }
      } else {
        persisted := Show(now);
      }
    }

    /** `initialize()`: the page's memo is loaded, the container built (an
        existing one is replaced, as when the page re-initializes after an
        import, a deletion or an added selection), and the widget shown when
        the memo is stored as visible. A failed load rejects before anything
        is built or removed. */
    method Initialize(now: string) returns (loaded: Result<Value, string>, persisted: Option<Result<Value, string>>)
      requires Valid()
      modifies this, manager.storage.area
      ensures Valid()
      ensures loaded.Failure? ==>
        && hasContainer == old(hasContainer) && isVisible == old(isVisible) && isMinimized == old(isMinimized) && persisted.None?
        && manager.storage.area.items == old(manager.storage.area.items)
      ensures loaded.Success? ==> hasContainer
      ensures loaded.Success? && Truthy(loaded.value) && Truthy(Member(loaded.value, "isVisible")) ==>
        && isVisible && !isMinimized && persisted.Some?
        && (persisted.value.Success? ==>
              manager.storage.area.items == VisibilityStored(old(manager.storage.area.items), manager.domain, true, now))
        && (persisted.value.Failure? ==> manager.storage.area.items == old(manager.storage.area.items))
      ensures loaded.Success? && !(Truthy(loaded.value) && Truthy(Member(loaded.value, "isVisible"))) ==>
        && isVisible == old(isVisible) && isMinimized == old(isMinimized) && persisted.None?
        && manager.storage.area.items == old(manager.storage.area.items)
      ensures loaded.Success? ==>
        (Truthy(Get(MemosIn(old(manager.storage.area.items)), manager.domain)) ==>
           loaded.value == Get(MemosIn(old(manager.storage.area.items)), manager.domain))
    {
      loaded := manager.LoadCurrentMemo();
      persisted := None;
      if loaded.Failure? {
        return;
      }
      hasContainer := true;
      if Truthy(loaded.value) && Truthy(Member(loaded.value, "isVisible")) {
        persisted := Show(now);
      }
    }
  }

  /** Showing, then hiding, leaves the memo stored as hidden and every
      other page's memo as it was. */
  lemma ShowThenHide(items: map<string, Value>, domain: string, now: string, later: string)
    requires Get(MemosIn(items), domain).Obj? && Truthy(Get(MemosIn(items), domain))
    ensures var shown := VisibilityStored(items, domain, true, now);
      var hidden := VisibilityStored(shown, domain, false, later);
      && Member(Get(MemosIn(hidden), domain), "isVisible") == Bool(false)
      && forall d :: d != domain ==> Get(MemosIn(hidden), d) == Get(MemosIn(items), d)
  {
    var shown := VisibilityStored(items, domain, true, now);
    var data := Put(Get(MemosIn(items), domain).fields, "isVisible", Bool(true));
    SaveMemoFrame(items, domain, data, now);
    assert Get(MemosIn(shown), domain) == Obj(Stamped(data, now));
  }
}

/** The platform's key-value storage areas: a flat map from key to stored
    value. `SyncArea` stands for `chrome.storage.sync` as the `src/data`
    layer uses it, which inspects `chrome.runtime.lastError` after every
    call; `LocalArea`
    stands for `chrome.storage.local` (and for `window.localStorage`) as the
    top-level scripts use it, which never inspect an error. */
module Chrome {
  import opened Wrappers
  import opened Seqs
  import opened Json

  /** `result[key]` after a `get`: the stored value, `undefined` when absent. */
  function At(items: map<string, Value>, key: string): (v: Value)
    ensures key in items ==> v == items[key]
    ensures key !in items ==> v == Undefined
  {
    if key in items then items[key] else Undefined
  }

  /** The quick-add flag as the legacy scripts read it: on unless the
      stored `enableQuickAdd` is `false`. */
  function QuickAddEnabled(items: map<string, Value>): (r: bool)
    ensures r <==> At(items, "enableQuickAdd") != Bool(false)
  {
    !At(items, "enableQuickAdd").Bool? || At(items, "enableQuickAdd").b
  }

  class SyncArea {
    var items: map<string, Value>

    constructor (items: map<string, Value>)
      ensures this.items == items
    {
      this.items := items;
    }

    /** `chrome.storage.sync.get(key, cb)`: the stored value, unless the
        platform reports `chrome.runtime.lastError` (any call may). */
    method Get(key: string) returns (r: Result<Value, string>)
      ensures r.Success? ==> r.value == At(items, key)
    {
      if * {
        var message: string :| true;
        r := Failure(message);
      } else {
        r := Success(At(items, key));
      }
    }

    /** `chrome.storage.sync.set({[key]: v}, cb)`: written, unless the
        platform reports an error (quota exceeded, context gone), in which
        case nothing changed. */
    method Set(key: string, v: Value) returns (err: Option<string>)
      modifies this
      ensures err.None? ==> items == old(items)[key := v]
      ensures err.Some? ==> items == old(items)
    {
      err :| true;
      if err.None? {
        items := items[key := v];
      }
    }
  }

  class LocalArea {
    var items: map<string, Value>

    constructor (items: map<string, Value>)
      ensures this.items == items
    {
      this.items := items;
    }

    /** `chrome.storage.local.get(key, cb)` */
    method Get(key: string) returns (v: Value)
      ensures v == At(items, key)
    {
      v := At(items, key);
    }

    /** The keys of `chrome.storage.local.get(null, cb)`'s result, in the
        order `for...in` and `Object.keys` visit them, which the platform
        does not specify: each stored key exactly once. */
    method GetAllKeys() returns (keys: seq<string>)
      ensures Distinct(keys)
      ensures forall k :: k in keys <==> k in items
    {
      keys := [];
      var rest := items.Keys;
      while rest != {}
        invariant Distinct(keys)
        invariant forall k :: k in keys <==> k in items && k !in rest
        invariant rest <= items.Keys
        decreases rest
      {
        var k :| k in rest;
        keys := keys + [k];
        rest := rest - {k};
      }
    }

    /** `chrome.storage.local.set({[key]: v}, cb)` */
    method Set(key: string, v: Value)
      modifies this
      ensures items == old(items)[key := v]
    {
      items := items[key := v];
    }

    /** `chrome.storage.local.remove(keys, cb)` */
    method Remove(keys: set<string>)
      modifies this
      ensures items == old(items) - keys
    {
      items := items - keys;
    }
  }
}

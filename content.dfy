/** The data logic of the old content script (`content.js`): the memo of
    the page lives under the legacy key `memo_<domain>` of
    `chrome.storage.local`, templates under `templates` with an `order`
    field. */
module LegacyContent {
  import opened Wrappers
  import opened Seqs
  import opened Text
  import opened Json
  import opened Chrome
  import opened DataStorage
  import opened TemplateOrder

  const QuoteOpen := "<blockquote style=\"border-left: 3px solid #7c4dff; padding-left: 10px; margin: 10px 0; color: #555;\">"
  const QuoteClose := "</blockquote>"

  /** `isEmptyContent`: falsy, or nothing but white space once every
      `<...>` run is removed. */
  function IsEmptyContent(content: string): (r: bool)
    ensures r <==> AllSpace(StripTags(content))
  {
    TrimEmptyIff(StripTags(content));
    content == [] || Trim(StripTags(content)) == []
  }

  /** Text with no tag in it is empty exactly when it is blank. */
  lemma PlainEmptyContent(content: string)
    requires NoTag(content)
    ensures IsEmptyContent(content) <==> AllSpace(content)
  {
    StripTagsFixed(content);
  }

  /** The storage key of the page's memo. */
  function MemoKey(domain: string): string {
    "memo_" + domain
  }

  /** The record a template save writes: the memo's HTML, the time, the
      page's domain and the next `order`. */
  function NewTemplate(content: string, now: int, domain: string, order: int): (r: Value)
    ensures Member(r, "content") == Str(content) && Member(r, "createdAt") == Num(now)
    ensures Member(r, "domain") == Str(domain) && OrderOr(r, -1) == order
  {
    var fs := [("content", Str(content)), ("createdAt", Num(now)), ("domain", Str(domain)), ("order", Num(order))];
    GetAt(fs, 1, "createdAt");
    GetAt(fs, 2, "domain");
    GetAt(fs, 3, "order");
    Obj(fs)
  }

  /** The template menu: the stored templates sorted by `order`, a missing
      one last. */
  function MenuOrder(templates: Fields): (names: seq<string>)
    ensures multiset(names) == multiset(Keys(templates))
    ensures forall i, j :: 0 <= i < j < |names| && DistinctKeys(templates) ==>
      OrderOr(Get(templates, names[i]), MaxSafeInteger) <= OrderOr(Get(templates, names[j]), MaxSafeInteger)
  {
    var sorted := SortByOrder(templates);
    SortedKeys(templates, sorted);
    Keys(sorted)
  }

  /** The names of the sorted entries, read back through the stored
      object, are in `order`. */
  lemma SortedKeys(templates: Fields, sorted: Fields)
    requires sorted == SortByOrder(templates)
    ensures multiset(Keys(sorted)) == multiset(Keys(templates))
    ensures forall i, j :: 0 <= i < j < |sorted| && DistinctKeys(templates) ==>
      OrderOr(Get(templates, Keys(sorted)[i]), MaxSafeInteger) <= OrderOr(Get(templates, Keys(sorted)[j]), MaxSafeInteger)
  {
    KeysMultiset(templates, sorted);
    if DistinctKeys(templates) {
      PermutedGet(templates, sorted);
    }
  }

  /** `url.trim()`, with `https://` in front unless it already names a
      scheme (`http`, `https`, `ftp`, `file`, `mailto`, `tel` followed by
      `://`) or starts with `mailto:` or `tel:`. */
  function FormatLinkUrl(url: string): (r: string)
    ensures HasScheme(Trim(url)) ==> r == Trim(url)
    ensures !HasScheme(Trim(url)) ==> r == "https://" + Trim(url)
  {
    var t := Trim(url);
    if HasScheme(t) then t else "https://" + t
  }

  predicate HasScheme(t: string) {
    || StartsWith(t, "http://") || StartsWith(t, "https://") || StartsWith(t, "ftp://")
    || StartsWith(t, "file://") || StartsWith(t, "mailto://") || StartsWith(t, "tel://")
    || StartsWith(t, "mailto:") || StartsWith(t, "tel:")
  }

  /** A formatted link is formatted already. */
  lemma FormatLinkIdempotent(url: string)
    ensures FormatLinkUrl(FormatLinkUrl(url)) == FormatLinkUrl(url)
    ensures HasScheme(FormatLinkUrl(url))
  {
    var t := Trim(url);
    TrimIdempotent(url);
    if !HasScheme(t) {
      HttpsPrefixed(t);
    }
  }

  /** `https://` in front of trimmed text gives trimmed text with a scheme. */
  lemma HttpsPrefixed(t: string)
    requires t == [] || (!IsSpace(t[0]) && !IsSpace(t[|t| - 1]))
    ensures Trim("https://" + t) == "https://" + t
    ensures HasScheme("https://" + t)
  {
    var r := "https://" + t;
    assert r[..8] == "https://";
    assert StartsWith(r, "https://");
    assert r[0] == 'h';
    assert r[|r| - 1] == if t == [] then '/' else t[|t| - 1];
    TrimmedIsFixed(r);
  }

  /** The memo after `addSelectionToMemo` appends `text`: the old content,
      if any, followed by the quoted text. */
  function WithQuote(memo: Value, text: string): (r: string)
    ensures |r| >= |QuoteOpen + text + QuoteClose| && r[|r| - |QuoteOpen + text + QuoteClose|..] == QuoteOpen + text + QuoteClose
    ensures Truthy(memo) && memo.Str? ==> r == memo.s + QuoteOpen + text + QuoteClose
    ensures !Truthy(memo) ==> r == QuoteOpen + text + QuoteClose
  {
    var quoted := QuoteOpen + text + QuoteClose;
    if Truthy(memo) then ToJsString(memo) + quoted else quoted
  }

  /** The content script of one page. */
  class ContentPage {
    const area: LocalArea
    const domain: string

    constructor (area: LocalArea, domain: string)
      ensures this.area == area && this.domain == domain
    {
      this.area := area;
      this.domain := domain;
    }

    /** The template button: an empty name (a cancelled prompt) writes
        nothing; otherwise the name gets the memo's HTML with an `order`
        one past the largest stored one. */
    method SaveAsTemplate(templateName: string, contentText: string, now: int)
      modifies area
      ensures templateName == [] ==> area.items == old(area.items)
      ensures templateName != [] ==>
        area.items == old(area.items)["templates" :=
          Obj(Put(TemplatesIn(old(area.items)), templateName,
                  NewTemplate(contentText, now, domain, NextOrder(TemplatesIn(old(area.items))))))]
    {
      var stored := area.Get("templates");
      var templates := FieldsOf(stored);
      if templateName != [] {
        var maxOrder := MaxOrder(templates);
        templates := Put(templates, templateName, NewTemplate(contentText, now, domain, maxOrder + 1));
        area.Set("templates", Obj(templates));
      }
    }

    /** `handleDragEnd`: the named children in list order, reindexed. */
    method HandleDragEnd(childNames: seq<string>)
      modifies area
      ensures area.items == old(area.items)["templates" :=
        Obj(Reindexed(TemplatesIn(old(area.items)), Filter(childNames, (n: string) => n != [])))]
    {
      var newOrder := Filter(childNames, (n: string) => n != []);
      var stored := area.Get("templates");
      var templates := FieldsOf(stored);
      var newTemplates := Reindex(templates, newOrder);
      area.Set("templates", Obj(newTemplates));
    }

    /** The editor's save button: blank content removes the memo and asks
        for it to be hidden (the result says whether that request is sent);
        anything else stores the cleaned-up HTML. */
    method SaveEditor(content: string, processedContent: string) returns (hideRequested: bool)
      modifies area
      ensures hideRequested <==> IsEmptyContent(content)
      ensures IsEmptyContent(content) ==> area.items == old(area.items) - {MemoKey(domain)}
      ensures !IsEmptyContent(content) ==> area.items == old(area.items)[MemoKey(domain) := Str(processedContent)]
    {
      if IsEmptyContent(content) {
        area.Remove({MemoKey(domain)});
        hideRequested := true;
      } else {
        area.Set(MemoKey(domain), Str(processedContent));
        hideRequested := false;
      }
    }

    /** `addSelectionToMemo`: nothing for a collapsed or blank selection,
        otherwise the trimmed text is quoted onto the memo. */
    method AddSelection(collapsed: bool, selectedText: string)
      modifies area
      ensures collapsed || Trim(selectedText) == [] ==> area.items == old(area.items)
      ensures !collapsed && Trim(selectedText) != [] ==>
        area.items == old(area.items)[MemoKey(domain) := Str(WithQuote(At(old(area.items), MemoKey(domain)), Trim(selectedText)))]
    {
      if collapsed {
        return;
      }
      var text := Trim(selectedText);
      if text == [] {
        return;
      }
      var memoContent := area.Get(MemoKey(domain));
      area.Set(MemoKey(domain), Str(WithQuote(memoContent, text)));
    }

    /** The storage part of `initializeMemo`: the quick-add flag, and the
        memo to show. Stored content that counts as empty is removed; a
        stored value that is not a string makes `replace` throw, so the
        callback stops with nothing shown or removed. */
    method Initialize() returns (quickAdd: bool, shown: Option<string>)
      modifies area
      ensures quickAdd == QuickAddEnabled(old(area.items))
      ensures var memo := At(old(area.items), MemoKey(domain));
        && (memo.Str? && memo.s != [] && !IsEmptyContent(memo.s) ==> shown == Some(memo.s) && area.items == old(area.items))
        && (memo.Str? && memo.s != [] && IsEmptyContent(memo.s) ==> shown == None && area.items == old(area.items) - {MemoKey(domain)})
        && (!memo.Str? || memo.s == [] ==> shown == None && area.items == old(area.items))
    {
      var flag := area.Get("enableQuickAdd");
      quickAdd := flag != Bool(false);
      var memoContent := area.Get(MemoKey(domain));
      shown := None;
      if memoContent.Str? && memoContent.s != [] {
        if !IsEmptyContent(memoContent.s) {
          shown := Some(memoContent.s);
        } else {
          area.Remove({MemoKey(domain)});
        }
      }
    }
  }

  /** A template save makes the saved name the last in `order`: every
      other stored template sorts before it. */
  lemma SavedTemplateIsLast(templates: Fields, name: string, content: string, now: int, domain: string)
    ensures var saved := Put(templates, name, NewTemplate(content, now, domain, NextOrder(templates)));
      forall k :: k != name && k in Keys(templates) ==> OrderOr(Get(saved, k), -1) < OrderOr(Get(saved, name), -1)
  {
    var saved := Put(templates, name, NewTemplate(content, now, domain, NextOrder(templates)));
    assert OrderOr(Get(saved, name), -1) == NextOrder(templates);
    forall k | k != name && k in Keys(templates) ensures OrderOr(Get(saved, k), -1) < OrderOr(Get(saved, name), -1) {
      StoredOrderBelowNext(templates, k);
    }
  }

  /** Every stored template's order is below the next one handed out. */
  lemma StoredOrderBelowNext(templates: Fields, k: string)
    requires k in Keys(templates)
    ensures OrderOr(Get(templates, k), -1) < NextOrder(templates)
  {
    var i :| 0 <= i < |templates| && templates[i].0 == k;
    FirstIndex(templates, k, i);
  }

  /** `o[k]` is the record of some entry named `k`. */
  lemma {:induction false} FirstIndex(fs: Fields, k: string, i: nat)
    requires i < |fs| && fs[i].0 == k
    ensures exists j :: 0 <= j < |fs| && fs[j].0 == k && Get(fs, k) == fs[j].1
  {
    if fs[0].0 != k {
      FirstIndex(fs[1..], k, i - 1);
      var j :| 0 <= j < |fs[1..]| && fs[1..][j].0 == k && Get(fs[1..], k) == fs[1..][j].1;
      assert fs[j + 1].0 == k;
    }
  }
}

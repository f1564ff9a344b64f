# chrome_memo data layer in Dafny

This project models the data layer of the chrome_memo browser extension. The extension keeps a
sticky note ("memo") per web site and a library of named text templates. Underneath the widgets it
works on a flat string-keyed store (`chrome.storage.sync`, `chrome.storage.local` or
`window.localStorage`). That store holds:

- a `memos` object keyed by host name;
- a `templates` object keyed by template name;
- older per-domain keys `memo_<d>`, `lastEdited_<d>` and `position_<d>`;
- the flag `enableQuickAdd`.

The repository carries several generations of the same logic side by side. Each file is modelled
as written, and no file is reconciled with another:

| module | file | form |
|---|---|---|
| `DataStorage` | `src/data/storage.js` | class over a `SyncArea` |
| `DataTemplates` | `src/data/template-store.js` | class over a `SyncArea`, reorder loop as a method |
| `CoreMemos` | `src/core/memo-manager.js` | class over `StorageManager`, field merge as functions |
| `CoreTemplates` | `src/core/template-manager.js` | class over `TemplateStore`, name and search as functions |
| `LegacyPopup` | `popup.js` | class over a `LocalArea`, collection loops as methods |
| `LegacyContent` | `content.js` | class over a `LocalArea` |
| `TemplateOrder` | `content.js`, `templates.js` | the `order` field: next order, sort, reindex loop |
| `LegacyBackground` | `background.js` | request handlers over a `LocalArea` |
| `RequestDispatch` | `src/background.js` | request checks and dispatch to `StorageManager` |
| `TemplatesPage` | `templates.js` | form checks, sorted rows, drop swap on a `ChildList` |
| `MemoWidget` | `src/ui/components/memo.js` | the `isVisible`/`isMinimized` state machine |
| `DragUtils` | `src/ui/utils/drag-utils.js` | viewport clamp, list move on drop, drag-end report |
| `LocalTemplates` | `template-manager.js` | the `localStorage` template functions |

Supporting modules:

- `Json` holds JavaScript values (`undefined`, `null`, booleans, integral numbers, strings and
  objects). An object is a sequence of `(key, value)` pairs, because key order is observable
  (`Object.keys`, `Object.assign`, `updateTemplateOrder`). `Get` reads the first pair with a key,
  `Put` replaces it in place or appends it, and `Delete` removes it. `Truthy` and `Or` give
  JavaScript's truthiness and `||`. JavaScript lists integer-like keys (`"0"`, `"42"`) first, in
  ascending order, and only then the other keys in insertion order. The model keeps plain insertion
  order for every key, so its claims about key order hold for objects without integer-like keys.
  `Get` sees an object's own keys only. Names that `Object.prototype` supplies (`toString`,
  `constructor`, `__proto__`, ...) are not modelled: in the extension `templates["toString"]` is
  truthy before any template of that name exists, and assigning `templates["__proto__"]` sets the
  prototype instead of storing a template.
- `Chrome` holds the storage areas, as classes with a `map<string, Value>` field. A `SyncArea`
  call may report `chrome.runtime.lastError`, which the `src/data` layer checks. A `LocalArea`
  call never fails, because the top-level scripts do not check for errors.
- `Dom` holds a parent's children as a sequence of names, with `insertBefore` and `nextSibling`.
- `Text` holds `trim`, ASCII `toLowerCase`, `padStart`, and the tag strip `replace(/<[^>]*>/g, '')`.
- `Seqs` holds sequence helpers (move, swap, stable sort, filter, dedup).

An object read back from storage never repeats a key. A few operations rely on this, namely those
that rebuild or merge objects and lists, and they say so with `DistinctKeys` or `Distinct` in their
`requires`. Timestamps, the page's host name, URL and title, prompt answers and confirmations are
parameters.

## Model

| member | source | states |
|---|---|---|
| DataStorage.Stamped | src/data/storage.js:19-22 | the stored record has `updatedAt` = now and every other field of `data` unchanged |
| DataStorage.StorageManager.GetAllMemos | src/data/storage.js:59-69 | resolves with the `memos` object, `{}` when none is stored |
| DataStorage.StorageManager.GetAllTemplates | src/data/storage.js:113-121 | resolves with the `templates` object, `{}` when none is stored |
| DataStorage.StorageManager.SaveMemo | src/data/storage.js:13-38 | writes `memos[d]` = data stamped with `updatedAt`, resolves with exactly that record; a rejected call wrote nothing |
| DataStorage.StorageManager.GetMemo | src/data/storage.js:45-53 | the stored record when truthy, `null` otherwise |
| DataStorage.StorageManager.DeleteMemo | src/data/storage.js:76-101 | false and no write for an absent domain; otherwise removes that domain and resolves true |
| DataStorage.StorageManager.ExportData | src/data/storage.js:107-134 | both objects, the export time and version `1.0.0` |
| DataStorage.StorageManager.ImportData | src/data/storage.js:141-175 | data without truthy `memos` or `templates` is rejected before any write; otherwise both are overwritten; a failing second write leaves only the first |
| DataStorage.SaveMemoFrame | src/data/storage.js:16-31 | after a save, `getMemo(d)` is the stamped record, every other domain and every other store key unchanged |
| DataStorage.DeleteMemoFrame | src/data/storage.js:80-94 | after a delete, `d` reads as absent, every other domain unchanged, key list is the old one without `d` |
| DataStorage.ExportImportRoundTrip | src/data/storage.js:107-175 | importing what export produced is accepted and restores the `memos` and `templates` objects |
| DataTemplates.TemplateList | src/data/template-store.js:26-34 | one item per stored name in key order, `updatedAt` falling back to `createdAt` |
| DataTemplates.BuildOrdered | src/data/template-store.js:133-147 | the two loops build the listed stored names first (first occurrences, in list order), then the rest in stored order |
| DataTemplates.OrderListed | src/data/template-store.js:136-140 | the first loop leaves the entries of the listed names whose records are truthy, first occurrence of each name, in list order |
| DataTemplates.AppendUnlisted | src/data/template-store.js:143-147 | the second loop appends every stored entry not yet taken, in stored order, so the object built is the reordered one |
| DataTemplates.ReorderedKeepsTemplates | src/data/template-store.js:136-147 | the reordered object has the same key set, no repeated key, and every record unchanged |
| DataTemplates.SaveTemplateRecord | src/data/template-store.js:62-69 | a new name gets `createdAt` = `updatedAt` = now; a re-save keeps `createdAt`; the record has exactly `content`, `createdAt`, `updatedAt` (so `order` is dropped); other names untouched |
| DataTemplates.TemplateStore.GetAllTemplates | src/data/template-store.js:10-20 | the `templates` object, `{}` when none is stored |
| DataTemplates.TemplateStore.GetTemplateList | src/data/template-store.js:26-34 | the list of the stored object |
| DataTemplates.TemplateStore.GetTemplate | src/data/template-store.js:41-44 | the stored record when truthy, `null` otherwise |
| DataTemplates.TemplateStore.SaveTemplate | src/data/template-store.js:52-91 | empty name or content rejected without a write; otherwise the record is written and the result reports name, content, dates and `isNew` |
| DataTemplates.TemplateStore.DeleteTemplate | src/data/template-store.js:98-123 | false without a write for an absent name; otherwise removes exactly that name and resolves true |
| DataTemplates.TemplateStore.UpdateTemplateOrder | src/data/template-store.js:130-163 | writes the reordered object and resolves true; a failed write changes nothing |
| CoreMemos.CurrentMemo | src/core/memo-manager.js:34 | the page's record when truthy, else `{}` |
| CoreMemos.MergedPosition | src/core/memo-manager.js:47 | option position, else the current position, else `null` |
| CoreMemos.MergedVisibility | src/core/memo-manager.js:48 | a given `isVisible` is kept; an omitted one is the current value when that is truthy, and `true` otherwise |
| CoreMemos.MergedCreatedAt | src/core/memo-manager.js:49 | the current `createdAt` when truthy, else the manager's own clock read |
| CoreMemos.MemoFields | src/core/memo-manager.js:45-52 | the six keys in literal order, each with its value |
| CoreMemos.MergedRecord | src/core/memo-manager.js:45-52 | the saved record has exactly content, position, isVisible, createdAt, url, title; no `floatingIconPosition` is carried over |
| CoreMemos.AppendedContent | src/core/memo-manager.js:124-130 | old content, a blank line and the text when content exists, else the text alone |
| CoreMemos.MemoList | src/core/memo-manager.js:139-150 | one item per domain, `updatedAt` falling back to `createdAt` |
| CoreMemos.MemoManager.LoadCurrentMemo | src/core/memo-manager.js:19-22 | the page's record or `null` |
| CoreMemos.MemoManager.SaveMemo | src/core/memo-manager.js:32-55 | stores the merged record for the page, whose `createdAt` fallback is the manager's clock read and whose `updatedAt` is the later read of the storage layer, and resolves with what storage stored |
| CoreMemos.MemoManager.UpdateMemoPosition | src/core/memo-manager.js:62-68 | `null` and no write without a memo; otherwise the record with `position` replaced is saved, and the promise resolves with that updated record |
| CoreMemos.MemoManager.UpdateFloatingIconPosition | src/core/memo-manager.js:75-81 | `null` and no write without a memo; otherwise only `floatingIconPosition` replaced, resolving with the updated record |
| CoreMemos.MemoManager.GetFloatingIconPosition | src/core/memo-manager.js:87-90 | the record's `floatingIconPosition`, `null` without a memo |
| CoreMemos.MemoManager.SetMemoVisibility | src/core/memo-manager.js:97-103 | `null` and no write without a memo; otherwise only `isVisible` replaced, resolving with the updated record |
| CoreMemos.MemoManager.DeleteCurrentMemo | src/core/memo-manager.js:109-111 | the storage delete for the page's domain |
| CoreMemos.MemoManager.AddSelectionToMemo | src/core/memo-manager.js:118-133 | empty text: `null`, no write; otherwise saves the appended content with no options and resolves with the record stored |
| CoreMemos.MemoManager.GetAllMemosList | src/core/memo-manager.js:139-150 | the list of the stored `memos` object |
| CoreMemos.SavedMemoRecord | src/core/memo-manager.js:32-55 | after `saveMemo(content)` the page's record has that content, `updatedAt` from the storage layer's clock read, `createdAt` kept or, on a first save, the manager's earlier clock read, no `floatingIconPosition`, other domains unchanged |
| CoreMemos.ContentSaveShowsHiddenMemo | src/core/memo-manager.js:48 | saving content without options turns a hidden memo visible |
| CoreMemos.SetMemoFieldOnly | src/core/memo-manager.js:62-103 | a single-field update changes that field and `updatedAt`, nothing else |
| CoreTemplates.AutoName | src/core/template-manager.js:61-65 | starts with `模板_`; 16 characters with `_` at index 11 for a four-digit year |
| CoreTemplates.AutoNameFields | src/core/template-manager.js:64 | year, month+1, day, hours and minutes read back from their digit positions |
| CoreTemplates.AutoNameInjective | src/core/template-manager.js:61-65 | two different minutes of four-digit years give different names |
| CoreTemplates.SearchResult | src/core/template-manager.js:84-96 | empty query: the whole list; otherwise exactly the items whose lowercased name or content contains the lowercased query |
| CoreTemplates.SearchKeepsOrder | src/core/template-manager.js:92-95 | the search of a concatenation is the concatenation of the searches (order kept) |
| CoreTemplates.SearchIgnoresCase | src/core/template-manager.js:89-94 | a template is found by its own name in any case |
| CoreTemplates.TemplateManager.GetTemplateList | src/core/template-manager.js:13-15 | the store's list |
| CoreTemplates.TemplateManager.SaveTemplate | src/core/template-manager.js:23-29 | empty name or content rejected before the store is touched; otherwise the store's save |
| CoreTemplates.TemplateManager.GetTemplateContent | src/core/template-manager.js:36-39 | the stored content, `null` when the name is absent |
| CoreTemplates.TemplateManager.DeleteTemplate | src/core/template-manager.js:46-48 | the store's delete |
| CoreTemplates.TemplateManager.SaveContentAsTemplate | src/core/template-manager.js:56-68 | empty content rejected without a write; an empty name replaced by the automatic one; on success resolves with the store's full result: name, content, `createdAt` kept or now, `updatedAt` now, `isNew` |
| CoreTemplates.TemplateManager.UpdateTemplateOrder | src/core/template-manager.js:75-77 | the store's reorder |
| CoreTemplates.TemplateManager.SearchTemplates | src/core/template-manager.js:84-96 | the search over the stored list |
| LegacyPopup.Synthesized | popup.js:180-184 | raw legacy content, `isVisible: true`, `lastEdited` from `lastEdited_<d>` or now |
| LegacyPopup.ListedRecord | popup.js:176-191 | the unified record wins when truthy; else the made-up one if a legacy key exists |
| LegacyPopup.ExportedRecord | popup.js:562-565 | the legacy record wins whenever a legacy key exists |
| LegacyPopup.LastEdited | popup.js:209-210 | `lastEdited` when it is a number (0 included), 0 when missing or not a number |
| LegacyPopup.LegacyDomain | popup.js:177 | the domain whose `memo_` key it is |
| LegacyPopup.Preview | popup.js:219-226 | placeholder for blank content; else the stripped, trimmed text, cut to 30 characters plus `...` |
| LegacyPopup.AssignKeys | popup.js:562-565 | `Object.assign`: the given keys take the source's values, all others keep the target's |
| LegacyPopup.SetEach | popup.js:661-673 | each listed key written with the source's value, every other key untouched |
| LegacyPopup.ImportError | popup.js:625-632 | a non-object is rejected; an object with neither `memos` nor `positions` is rejected; anything else passes |
| LegacyPopup.CollectLoop | popup.js:542-559 | the loop collects every `position_` key visited and a made-up record per visited legacy key |
| LegacyPopup.CollectExportParts | popup.js:542-559 | over all stored keys: every position key, a made-up record per legacy key, `hasOldFormatMemos` iff a legacy key exists |
| LegacyPopup.CombinedIsExported | popup.js:561-565 | the combined object holds `ExportedRecord` for every domain; empty iff both parts are |
| LegacyPopup.SortedSites | popup.js:208-212 | the sorted domains are the same domains, each once, newest `lastEdited` first |
| LegacyPopup.Popup.MergeSites | popup.js:163-192 | every listed domain once, with its listed record; nothing written back |
| LegacyPopup.Popup.LoadSavedSites | popup.js:161-242 | one row per listed domain, newest first, each with the preview of its listed record |
| LegacyPopup.Popup.DeleteSite | popup.js:262-290 | the unified record (if truthy) and the three legacy keys are removed, all else untouched |
| LegacyPopup.Popup.ExportData | popup.js:526-586 | nothing to export iff no memos, no legacy key and no position; else the combined memos (legacy wins), every position key, `mixed` iff a legacy key exists |
| LegacyPopup.Popup.ExportDataCorrected | popup.js:526-586 | as `ExportData`, but each domain carries the record the site list shows |
| LegacyPopup.Popup.ImportData | popup.js:612-673 | a rejected file or a declined confirmation writes nothing; otherwise `memos` is replaced and each position key written |
| LegacyPopup.ImportedListed | popup.js:651-673 | after importing a backup, a domain lists the backup's record, or its legacy record when the backup's is falsy |
| LegacyPopup.CorrectedExportRoundTrip | popup.js:526-673 | importing the corrected export lists every domain with the record it had |
| LegacyPopup.AsWrittenExportRoundTripFails | popup.js:562-565 | with an edited unified memo over a stale legacy key, importing the export brings back the stale content |
| LegacyContent.IsEmptyContent | content.js:118-124 | true iff the content without tags is all white space |
| LegacyContent.PlainEmptyContent | content.js:118-124 | text without tags is empty iff it is blank |
| LegacyContent.NewTemplate | content.js:352-357 | the record has the content, time, domain and the given order |
| LegacyContent.MenuOrder | content.js:394-403 | the menu names are the stored names, sorted by `order`, a missing order last |
| LegacyContent.SortedKeys | content.js:837-843 | the sorted entries keep the names and come out ascending by `order` |
| LegacyContent.FormatLinkUrl | content.js:1256-1265 | trimmed; `https://` prefixed unless the URL already names a scheme |
| LegacyContent.FormatLinkIdempotent | content.js:1256-1265 | formatting twice equals formatting once, and the result always has a scheme |
| LegacyContent.WithQuote | content.js:1679-1699 | the old content followed by the blockquote of the text, or the blockquote alone |
| LegacyContent.ContentPage.SaveAsTemplate | content.js:339-359 | an empty name writes nothing; otherwise the name gets the record with order max+1 |
| LegacyContent.ContentPage.HandleDragEnd | content.js:551-575 | writes the reindexed object for the named children in list order |
| LegacyContent.ContentPage.SaveEditor | content.js:1172-1219 | blank content removes `memo_<d>` and asks to hide; anything else stores the processed content |
| LegacyContent.ContentPage.AddSelection | content.js:1666-1699 | a collapsed or blank selection writes nothing; otherwise the quoted, trimmed text is appended |
| LegacyContent.ContentPage.Initialize | content.js:1570-1590 | quick-add flag; a non-empty stored memo is shown, one that counts as empty is removed |
| LegacyContent.SavedTemplateIsLast | content.js:347-357 | every other stored template sorts strictly before the saved one |
| TemplateOrder.OrderOr | content.js:397-398 | the stored numeric `order`, else the fallback |
| TemplateOrder.MaxOrder | content.js:347-349 | at least -1, at least every order, and attained when above -1 |
| TemplateOrder.NextOrder | content.js:347-356 | exactly one above the greatest existing order: strictly above every order, and either 0 (no order at least 0) or an existing order plus one |
| TemplateOrder.SortByOrder | content.js:394-400 | sorted ascending by `order` (missing last) and a permutation of the entries |
| TemplateOrder.Reindex | content.js:561-568 | the `forEach` loop builds the reindexed object |
| TemplateOrder.ReindexedKeys | content.js:561-568 | keys are exactly the listed names that name a stored template, in list order |
| TemplateOrder.ReindexedDrops | content.js:558-568 | a template not listed, or not stored, is absent afterwards |
| TemplateOrder.ReindexedRecord | content.js:561-567 | each kept record is the stored one with `order` set to its list index |
| TemplateOrder.ReindexKeepsFields | content.js:563-566 | every field other than `order` is kept |
| LegacyBackground.MemoRecord | background.js:73-77 | exactly `content`, `isVisible: true`, `lastEdited: now` |
| LegacyBackground.TemplateRecord | background.js:135-138 | exactly `content` and `createdAt: now`; any `order` is gone |
| LegacyBackground.WithVisibility | background.js:101-102 | only `isVisible` changes, on an object |
| LegacyBackground.MemoResponse | background.js:91-94 | the domain's record or `null` |
| LegacyBackground.TemplateResponse | background.js:148-151 | the template's record or `null` |
| Chrome.QuickAddEnabled | background.js:59-61 | enabled unless stored as `false`; the content script reads the flag the same way (content.js:1571-1573) |
| LegacyBackground.ToggledAsWritten | background.js:213-214 | stores the negated truthiness of the stored flag |
| LegacyBackground.ToggledCorrected | background.js:213-214 | stores the opposite of what startup shows |
| LegacyBackground.Background.HandleSaveMemo | background.js:71-88 | replaces the domain's record with a fresh visible one, others untouched |
| LegacyBackground.Background.HandleUpdateMemoVisibility | background.js:97-111 | an existing memo changes only `isVisible`; otherwise "Memo not found" and no write |
| LegacyBackground.Background.HandleDeleteMemo | background.js:118-130 | an existing memo is removed; otherwise "Memo not found" and no write |
| LegacyBackground.Background.HandleSaveTemplate | background.js:131-144 | replaces the name's record with `{content, createdAt}` |
| LegacyBackground.Background.HandleDeleteTemplate | background.js:161-174 | an existing template is removed; otherwise "Template not found" and no write |
| LegacyBackground.Background.OnMessage | background.js:70-176 | each action's response and store effect; reads write nothing; an unknown action gets no response |
| LegacyBackground.Background.OnStartup | background.js:59-67 | the checkbox shows enabled unless the flag is stored as `false` |
| LegacyBackground.Background.OnMenuToggle | background.js:41-43 | stores the checkbox state |
| LegacyBackground.Background.OnToggleCommand | background.js:211-228 | stores `!stored` as written |
| LegacyBackground.Background.OnToggleCommandCorrected | background.js:211-228 | stores the opposite of what startup shows |
| LegacyBackground.SaveThenGetMemo | background.js:71-94 | after `saveMemo`, `getMemo` answers the new record for that domain and the old answer for others |
| LegacyBackground.DeleteThenGetMemo | background.js:89-129 | after `deleteMemo`, `getMemo` answers `null` for it and the old answer for others |
| LegacyBackground.ToggleFromUnsetDoesNotToggle | background.js:213-215 | from an unset flag, startup shows enabled and the first toggle stores enabled again |
| LegacyBackground.CorrectedToggleFlips | background.js:213-215 | the corrected toggle always flips what startup shows |
| RequestDispatch.Rejection | src/background.js:74-193 | missing fields first, then a missing storage manager; unknown actions rejected; `setContextMenu` and complete memo requests with a manager pass |
| RequestDispatch.ErrorText | src/background.js:100 | the error's message, or the fallback when it is empty |
| RequestDispatch.Dispatcher.OnMessage | src/background.js:72-194 | rejected requests write nothing; get, save and delete reply with storage's result or `{success:false, error}` |
| RequestDispatch.RejectionReasons | src/background.js:77-164 | a memo request is never "unknown"; with its fields present it is rejected iff storage is missing |
| TemplatesPage.ValidateForm | templates.js:28-40 | passes iff trimmed name and content are non-empty; name checked first |
| TemplatesPage.PreviewOf | templates.js:80 | the first 100 characters of the stripped content, or all of it when shorter, with no tag left |
| TemplatesPage.Rows | templates.js:55-80 | one row per stored name, each previewing that name's content |
| TemplatesPage.RowsSorted | templates.js:58-64 | rows ascending by `order`, a missing order last |
| TemplatesPage.SwapDropped | templates.js:203-222 | the page's insertBefore steps keep the same rows |
| TemplatesPage.SwapDroppedIsSwap | templates.js:203-222 | those steps exchange the dragged row and the target, all other rows stay in place |
| TemplatesPage.TemplatesPage.SaveTemplate | templates.js:28-50 | a failed check writes nothing; otherwise the trimmed fields are saved |
| TemplatesPage.TemplatesPage.LoadTemplates | templates.js:53-80 | the rows of what `getAllTemplates` answers |
| TemplatesPage.TemplatesPage.HandleDrop | templates.js:198-228 | dropping on itself changes nothing; otherwise the two rows trade places and the templates are reindexed in the new screen order, as `updateTemplateOrder` does |
| TemplatesPage.TemplatesPage.UpdateTemplateOrder | templates.js:237-263 | writes the reindexed object for the rows' non-empty names in screen order, each row naming the template it was rendered from |
| TemplatesPage.RowOrder | templates.js:239-241 | the rows' non-empty names, every one kept, each a row's name |
| TemplatesPage.RowReorderKeepsTemplates | templates.js:237-263 | reordering the rendered rows keeps every stored template with a non-empty name, its record unchanged but for `order`, set to its place among the rows |
| TemplatesPage.DataName | templates.js:84 | the unescaped `data-name="${name}"` reads back as the longest prefix of the name without a double quote, so it is the name exactly when the name has none |
| TemplatesPage.ReadBackOrder | templates.js:239-241 | as written: each row's `dataset.name`, empty ones left out; every name read back non-empty is kept |
| TemplatesPage.QuotedNameDroppedByReorder | templates.js:84 | a stored template named `say "hi"` reads back as `say `, so the reorder written after a drop no longer holds it |
| MemoWidget.VisibilityStored | src/core/memo-manager.js:97-103 | the page's memo gets the visibility, others unchanged; no write without a memo |
| MemoWidget.MemoComponent.constructor | src/ui/components/memo.js:7-15 | no container, not visible, not minimized |
| MemoWidget.MemoComponent.Show | src/ui/components/memo.js:408-443 | no-op without a container; otherwise visible, not minimized, stored visible |
| MemoWidget.MemoComponent.Hide | src/ui/components/memo.js:448-458 | no-op without a container; otherwise neither visible nor minimized, stored hidden |
| MemoWidget.MemoComponent.Minimize | src/ui/components/memo.js:463-475 | no-op without a container; otherwise minimized and visible, nothing stored |
| MemoWidget.MemoComponent.Restore | src/ui/components/memo.js:480-511 | only a minimized widget changes: no longer minimized, visibility kept |
| MemoWidget.MemoComponent.Toggle | src/ui/components/memo.js:516-526 | minimized: restore; visible: hide; hidden: show; `isMinimized ==> isVisible` kept |
| MemoWidget.MemoComponent.Initialize | src/ui/components/memo.js:21-39 | builds the container, replacing one left by an earlier call, and shows the widget iff the loaded memo is marked visible; a failed load keeps the container as it was |
| MemoWidget.ShowThenHide | src/ui/components/memo.js:408-458 | show then hide leaves the memo stored hidden and every other memo as it was |
| DragUtils.CheckBoundaries | src/ui/utils/drag-utils.js:27-51 | each coordinate below its lower bound gets it, above the upper gets that, inside stays |
| DragUtils.ClampedInside | src/ui/utils/drag-utils.js:33-48 | in a viewport large enough, the result lies inside the allowed box |
| DragUtils.ClampIdempotent | src/ui/utils/drag-utils.js:27-51 | clamping twice equals clamping once, in a viewport large enough |
| DragUtils.ClampKeepsInside | src/ui/utils/drag-utils.js:37-48 | a point inside the box is unchanged |
| DragUtils.Draggable.SetTranslate | src/ui/utils/drag-utils.js:54-61 | the offsets become the clamped point |
| DragUtils.Draggable.SetPosition | src/ui/utils/drag-utils.js:122-128 | ignored unless `x` and `y` are numbers; otherwise the offsets become the clamped point |
| DragUtils.Sortable.DragStart | src/ui/utils/drag-utils.js:170-177 | records the dragged item |
| DragUtils.Sortable.Drop | src/ui/utils/drag-utils.js:207-231 | a drop on another item moves the dragged one to the target's index; on itself, nothing |
| DragUtils.Sortable.DragEnd | src/ui/utils/drag-utils.js:180-188 | reports the names captured at setup |
| DragUtils.Sortable.DragEndCorrected | src/ui/utils/drag-utils.js:180-188 | reports the names in the list's current order |
| DragUtils.DropSteps | src/ui/utils/drag-utils.js:219-225 | inserting before the target's next sibling (dragging down) or before the target (dragging up) both move the dragged item to the target's index |
| DragUtils.DropKeepsOthers | src/ui/utils/drag-utils.js:211-227 | a move is a permutation, puts the dragged item at the target index and keeps the others' relative order |
| DragUtils.DropChangesOrder | src/ui/utils/drag-utils.js:211-227 | a move onto another item always changes a list without repeats |
| DragUtils.StaleReportExample | src/ui/utils/drag-utils.js:184-187 | with two items, the list shows `b, a` while the report is `a, b` |
| LocalTemplates.StoredTemplates | template-manager.js:21-23 | the stored object, `{}` when nothing is stored |
| LocalTemplates.TemplateRecord | template-manager.js:9-12 | `{content, createdAt: now}` |
| LocalTemplates.TemplateManager.SaveAsTemplate | template-manager.js:4-18 | creates or overwrites the name, returns true |
| LocalTemplates.TemplateManager.GetAllTemplates | template-manager.js:21-23 | the stored object, `{}` when nothing is stored |
| LocalTemplates.TemplateManager.UseTemplate | template-manager.js:26-33 | true and the callback gets the content iff the name exists; otherwise false and no callback |
| LocalTemplates.TemplateManager.DeleteTemplate | template-manager.js:36-44 | false without a write for an absent name; otherwise removes only that name, true |
| LocalTemplates.SaveThenRead | template-manager.js:4-23 | after a save, the name reads back with that content, others unchanged |
| LocalTemplates.DeleteThenRead | template-manager.js:36-44 | after a delete, the name is gone, others unchanged |
| Text.TrimEmptyIff | content.js:122-123 | a string trims to "" iff it is all white space |
| Text.StripTagsNoTag | content.js:122 | the stripped text contains no `<...>` run |
| Text.StripTagsIdempotent | content.js:122 | stripping twice equals stripping once |
| Text.Pad2Value | src/core/template-manager.js:64 | a two-digit padded number reads back as that number |
| Chrome.LocalArea.GetAllKeys | popup.js:163-171 | every stored key exactly once, in an unspecified order |
| Dom.ChildList.InsertBefore | templates.js:213-219 | the same children, with the element moved before the reference or to the end |

## Left out

- Rendering, dialogs, toasts, alerts, menus and tabs are left out. Only what they write to storage, or which element they move, is modelled.
- Messaging transport between pages is not modelled. A request is a datatype, and the handler's reply is its result.
- `JSON.stringify`/`JSON.parse` of `localStorage` and of backup files are not modelled. Values are modelled already parsed.
- Arrays and floating-point numbers are not modelled. Numbers are integers, which covers the time stamps, orders and pixel coordinates used.
- Date formatting is not modelled. Dates are parameters, and the automatic template name takes the fields of a `Date`.
- `toLowerCase` covers ASCII letters only.
- The order of `for...in` over the whole store is not modelled. It is a nondeterministic choice, and every contract that depends on it holds for every order.
- Concurrency between overlapping asynchronous read-modify-write calls is not modelled. Each call runs to completion.
- The mouse-drag handlers of `makeDraggable` are left out. On mouse-up they report the clamped offset, which the memo widget stores as the memo's `position` (through `updateMemoPosition`) or as its `floatingIconPosition` (through `updateFloatingIconPosition`). That write is not modelled; the two store operations themselves are.
- MemoWidget.MemoComponent.Show: the viewport check may call `resetPosition`, which moves the element and also stores `position: null` through `updateMemoPosition(null)` without being awaited. That store write, and its interleaving with the visibility write, are not modelled.
- MemoWidget.MemoComponent.Restore: the same unawaited `resetPosition` store write of `position: null` is not modelled.
- The `createMemoUI` DOM construction and the visibility observer are left out.
- `src/popup.js`, `src/content.js`, `src/templates.js`, `src/core/selection-utils.js`, `src/ui/components/template-list.js` and `src/ui/components/editor.js` are not part of this model. They are callers of the modelled code.
- The HTML clean-up that produces the processed editor content is not modelled. It is a parameter of `LegacyContent.ContentPage.SaveEditor`.
- TemplatesPage.PreviewOf: a template whose `content` is not a string makes the page's `replace` throw. The model previews the text of the value instead.
- DragUtils.Sortable.Drop: with no drag under way, the page throws before moving anything. The model leaves the list unchanged.
- LegacyContent.ContentPage.Initialize: the two storage reads are one step, so the order in which their callbacks run is not modelled.

- OrderListed (DataTemplates.OrderListed): "in list order" holds for names that are not integer-like. JavaScript lists integer-like keys such as `"1"` first, in ascending order, whatever order the loop puts them in.
- AppendUnlisted (DataTemplates.AppendUnlisted): the appended entries follow insertion order only for names that are not integer-like, for the same reason.
- BuildOrdered (DataTemplates.BuildOrdered): the order "listed names first, then the rest" holds only when no template name is integer-like. Templates `b` and `1` listed as `b, 1` are stored and listed as `1, b`.
- UpdateTemplateOrder (DataTemplates.TemplateStore.UpdateTemplateOrder, CoreTemplates.TemplateManager.UpdateTemplateOrder and TemplatesPage.TemplatesPage.UpdateTemplateOrder): the key order of the object written matches the model only for names that are not integer-like.
- Reindex (TemplateOrder.Reindex): the key order of the reindexed object matches the model only for names that are not integer-like. Each record's `order` field, which is what the pages sort by, is unaffected.
- ReindexedKeys (TemplateOrder.ReindexedKeys): "in list order" holds only for names that are not integer-like. The set of keys is as stated for every name.
- SortByOrder (TemplateOrder.SortByOrder): ties in `order` keep the order of the object's entries, and for integer-like names that is JavaScript's ascending order, not insertion order.
- TemplateList (DataTemplates.TemplateList): "in key order" is insertion order in the model, so it differs for integer-like names. A `null` template record, which an imported backup can contain, makes the source throw a `TypeError` when it reads `template.content`. The model lists that record with `undefined` fields.
- GetTemplateList (DataTemplates.TemplateStore.GetTemplateList and CoreTemplates.TemplateManager.GetTemplateList): inherits both gaps of TemplateList. A stored `null` record rejects in the source and is listed in the model.
- MemoList (CoreMemos.MemoList): a `null` memo record makes the source throw a `TypeError` when it reads `memo.content`. The model lists that domain with `undefined` fields.
- GetAllMemosList (CoreMemos.MemoManager.GetAllMemosList): inherits the `null` record gap of MemoList. The source rejects, and the model resolves with the list.
- LoadSavedSites (LegacyPopup.Popup.LoadSavedSites): a `null` unified memo record with no legacy `memo_<d>` key to replace it makes the source's sort (`memos[b].lastEdited`) and row map throw. The model sorts that domain with `lastEdited` 0 and shows the placeholder preview.
- SearchResult (CoreTemplates.SearchResult): a template whose `content` is not a string, and whose name does not match, makes `toLowerCase` throw in the source. The model searches an empty content for it instead.
- SearchTemplates (CoreTemplates.TemplateManager.SearchTemplates): inherits the non-string `content` gap of SearchResult. The source rejects, and the model resolves with the filtered list.
- Preview (LegacyPopup.Preview): a truthy `content` that is not a string makes `.trim()` throw in the source. The model previews the text of the value instead.
- Preview and PreviewOf (LegacyPopup.Preview, TemplatesPage.PreviewOf): `substring(0, 30)` and `slice(0, 100)` count UTF-16 code units. A Dafny `char` is a whole code point, so on text with astral characters such as emoji the model cuts at a different place. The same holds wherever the model counts characters.
- ImportData (LegacyPopup.Popup.ImportData): `Object.keys(data.positions)` runs on any truthy `positions`. A string such as `"ab"` writes the keys `"0"` and `"1"`. The model writes positions only when `positions` is an object.

- MemosIn and TemplatesIn (DataStorage.MemosIn, DataStorage.TemplatesIn): a stored `memos` or `templates` that is truthy but not an object, which an accepted import can write, is read as `{}`. In the `src/data` classes the source then throws when it assigns a property (strict mode), so the save rejects; in the old background page the assignment is silently dropped and the reply still says success. The model writes a fresh object holding the one record.
- DataName (TemplatesPage.DataName): the HTML parser also decodes character references in the attribute (`a&amp;b` reads back as `a&b`). The model only ends the value at the first double quote.
- The edit, use and delete buttons of the old template page send the name read back from `data-name` too. They are not modelled.

- TemplatesPage.TemplatesPage.HandleDrop: with no drag under way (`dragSrcEl` is `null`), the page throws on `dragSrcEl.dataset` before moving anything. The model requires the dragged row to be on screen and does not model that case.

## Findings

| source | as written | input that shows it | evidently intended | confidence | as-written member | corrected member |
|---|---|---|---|---|---|---|
| popup.js:562-565 | export lays every legacy `memo_<d>` record over the unified `memos[d]` | the unified `a.com` memo says "edited" and `memo_a.com` still says "stale"; importing the export lists "stale" | the site list's rule, where the unified record wins and legacy only fills gaps, so export then import keeps every listed memo | high (not executed) | LegacyPopup.AsWrittenExportRoundTripFails | LegacyPopup.CorrectedExportRoundTrip |
| background.js:213-215 | the toggle command stores `!result.enableQuickAdd`, where unset counts as off, yet startup (background.js:60-61) shows unset as on | no `enableQuickAdd` key: startup shows enabled, and the first toggle stores `true`, so nothing changes | the toggle flips the state startup shows | high (not executed) | LegacyBackground.ToggleFromUnsetDoesNotToggle | LegacyBackground.CorrectedToggleFlips |
| src/ui/utils/drag-utils.js:184-187 | drag end reports the order of the item list captured at setup, not the order after the drop | items `a, b`; drop `a` on `b`; the list shows `b, a` but the report is `a, b`, so the new order is never saved | report the children in their current order | high (not executed) | DragUtils.StaleReportExample | DragUtils.Sortable.DragEndCorrected |
| templates.js:84 | rows are rendered with the unescaped attribute `data-name="${name}"`, and `updateTemplateOrder` (templates.js:239-259) reorders by the name read back from it | a stored template named `say "hi"` reads back as `say `; after any drop the `templates` object written no longer holds it, so the template is deleted | escape the name, so that every row reads back the name it was rendered from and a reorder keeps every template | high (not executed) | TemplatesPage.QuotedNameDroppedByReorder | TemplatesPage.RowReorderKeepsTemplates |

/** The data logic of the old popup page (`popup.js`) over
    `chrome.storage.local`, where memos live in two shapes: the unified
    `memos` object keyed by domain, and legacy per-domain keys `memo_<d>`
    (the content), `lastEdited_<d>` and `position_<d>`. */
module LegacyPopup {
  import opened Wrappers
  import opened Seqs
  import opened Text
  import opened Json
  import opened Chrome
  import opened DataStorage

  const MemoPrefix := "memo_"
  const LastEditedPrefix := "lastEdited_"
  const PositionPrefix := "position_"
  const EmptyPreview := "(空备忘录)"
  const BadFormat := "导入的文件格式不正确"
  const NoMemoData := "导入文件不包含有效的备忘录数据"

  /** A legacy `memo_<d>` key is stored for domain `d`. */
  predicate HasLegacy(items: map<string, Value>, d: string) {
    MemoPrefix + d in items
  }

  predicate AnyLegacy(items: map<string, Value>) {
    exists k :: k in items && StartsWith(k, MemoPrefix)
  }

  predicate AnyPosition(items: map<string, Value>) {
    exists k :: k in items && StartsWith(k, PositionPrefix)
  }

  /** The record made up for a legacy key: its raw content, visible, and
      `lastEdited` from `lastEdited_<d>` or else `now`. */
  function Synthesized(items: map<string, Value>, d: string, now: int): (r: Fields)
    ensures Get(r, "content") == At(items, MemoPrefix + d)
    ensures Get(r, "isVisible") == Bool(true)
    ensures Truthy(At(items, LastEditedPrefix + d)) ==> Get(r, "lastEdited") == At(items, LastEditedPrefix + d)
    ensures !Truthy(At(items, LastEditedPrefix + d)) ==> Get(r, "lastEdited") == Num(now)
  {
    var r := [("content", At(items, MemoPrefix + d)), ("isVisible", Bool(true)),
              ("lastEdited", Or(At(items, LastEditedPrefix + d), Num(now)))];
    GetAt(r, 1, "isVisible");
    GetAt(r, 2, "lastEdited");
    r
  }

  /** The record the site list shows for `d`: the unified one when it is
      truthy, else the one made up from a legacy key. */
  function ListedRecord(items: map<string, Value>, d: string, now: int): (v: Value)
    ensures Truthy(Get(MemosIn(items), d)) ==> v == Get(MemosIn(items), d)
    ensures !Truthy(Get(MemosIn(items), d)) && HasLegacy(items, d) ==> v == Obj(Synthesized(items, d, now))
    ensures !Truthy(Get(MemosIn(items), d)) && !HasLegacy(items, d) ==> v == Get(MemosIn(items), d)
  {
    var unified := Get(MemosIn(items), d);
    if !Truthy(unified) && HasLegacy(items, d) then Obj(Synthesized(items, d, now)) else unified
  }

  /** The domains the site list shows. */
  predicate IsListed(items: map<string, Value>, d: string) {
    d in Keys(MemosIn(items)) || HasLegacy(items, d)
  }

  /** The record the export writes for `d`: `Object.assign(combinedMemos,
      singleMemos)` lets the legacy record replace the unified one. */
  function ExportedRecord(items: map<string, Value>, d: string, now: int): (v: Value)
    ensures HasLegacy(items, d) ==> v == Obj(Synthesized(items, d, now))
    ensures !HasLegacy(items, d) ==> v == Get(MemosIn(items), d)
  {
    if HasLegacy(items, d) then Obj(Synthesized(items, d, now)) else Get(MemosIn(items), d)
  }

  /** `memos[d].lastEdited || 0`, read as a number. */
  function LastEdited(rec: Value): (n: int)
    ensures Member(rec, "lastEdited").Num? ==> n == Member(rec, "lastEdited").n
    ensures !Member(rec, "lastEdited").Num? ==> n == 0
  {
    match Member(rec, "lastEdited")
    case Num(n) => n
    case _ => 0
  }

  /** The sort key of `(a, b) => (memos[b].lastEdited || 0) - (memos[a].lastEdited || 0)`:
      newest first. */
  function NewestFirst(memos: Fields): string -> int {
    d => -LastEdited(Get(memos, d))
  }

  /** The text after the `memo_` of a legacy key (`key.replace('memo_', '')`). */
  function LegacyDomain(key: string): (d: string)
    requires StartsWith(key, MemoPrefix)
    ensures MemoPrefix + d == key
  {
    key[|MemoPrefix|..]
  }

  lemma PrefixInjective(p: string, a: string, b: string)
    ensures p + a == p + b <==> a == b
  {
    if p + a == p + b {
      assert a == (p + a)[|p|..];
      assert b == (p + b)[|p|..];
    }
  }

  /** The site-list preview of a memo's content: the text without tags,
      trimmed and cut to 30 characters plus `...`; the placeholder when
      the content is blank. */
  function Preview(content: Value): (p: string)
    ensures AllSpace(TextOf(content)) ==> p == EmptyPreview
    ensures !AllSpace(TextOf(content)) ==>
      var t := Trim(StripTags(TextOf(content)));
      && (|t| <= 30 ==> p == t)
      && (|t| > 30 ==> |p| == 33 && p[..30] == t[..30] && p[30..] == "...")
  {
    var s := TextOf(content);
    TrimEmptyIff(s);
    if Truthy(content) && Trim(s) != [] then Shortened(Trim(StripTags(s))) else EmptyPreview
  }

  /** A text cut to its first 30 characters plus `...` when longer. */
  function Shortened(t: string): (p: string)
    ensures |t| <= 30 ==> p == t
    ensures |t| > 30 ==> |p| == 33 && p[..30] == t[..30] && p[30..] == "..."
  {
    if |t| > 30 then t[..30] + "..." else t
  }

  /** One line of the site list. */
  datatype SiteRow = SiteRow(domain: string, preview: string)

  /** The memos `exportData` writes, as an object value. */
  datatype Backup = Backup(memos: Fields, positions: Fields, exportDate: string, mixed: bool)
  {
    /** The exported object `{memos, positions, meta}`. */
    function ToValue(): (v: Value)
      ensures Member(v, "memos") == Obj(memos) && Member(v, "positions") == Obj(positions)
    {
      var meta := [("exportDate", Str(exportDate)), ("version", Str("1.3")),
                   ("dataFormat", Str(if mixed then "mixed" else "standard"))];
      var fs := [("memos", Obj(memos)), ("positions", Obj(positions)), ("meta", Obj(meta))];
      GetAt(fs, 1, "positions");
      Obj(fs)
    }
  }

  /** `Object.assign(target, src)` for the keys `ks` of `src`, in order. */
  function AssignKeys(target: Fields, ks: seq<string>, src: Fields): (r: Fields)
    ensures forall k :: k in ks ==> Get(r, k) == Get(src, k)
    ensures forall k :: k !in ks ==> Get(r, k) == Get(target, k)
    ensures |r| >= |target| && (ks != [] ==> r != [])
    decreases |ks|
  {
    if ks == [] then target
    else
      var n := |ks| - 1;
      var prev := AssignKeys(target, ks[..n], src);
      assert forall k :: k in ks <==> k in ks[..n] || k == ks[n] by {
        assert ks == ks[..n] + [ks[n]];
      }
      Put(prev, ks[n], Get(src, ks[n]))
  }

  /** One `chrome.storage.local.set({[k]: src[k]})` per key of `ks`, in order. */
  function SetEach(items: map<string, Value>, ks: seq<string>, src: Fields): (r: map<string, Value>)
    ensures forall k :: k in ks ==> k in r && r[k] == Get(src, k)
    ensures forall k :: k !in ks ==> (k in r <==> k in items) && (k in items ==> r[k] == items[k])
    decreases |ks|
  {
    if ks == [] then items
    else
      var n := |ks| - 1;
      assert forall k :: k in ks <==> k in ks[..n] || k == ks[n] by {
        assert ks == ks[..n] + [ks[n]];
      }
      SetEach(items, ks[..n], src)[ks[n] := Get(src, ks[n])]
  }

  /** One more key of `ks` is one more write. */
  lemma SetEachStep(items: map<string, Value>, ks: seq<string>, i: nat, src: Fields)
    requires i < |ks|
    ensures SetEach(items, ks[..i + 1], src) == SetEach(items, ks[..i], src)[ks[i] := Get(src, ks[i])]
  {
    assert ks[..i + 1][..i] == ks[..i];
  }

  /** Why `importData` rejects a parsed file, if it does. */
  function ImportError(data: Value): (e: Option<string>)
    ensures !data.Obj? ==> e == Some(BadFormat)
    ensures data.Obj? && !Truthy(Member(data, "memos")) && !Truthy(Member(data, "positions")) ==> e == Some(NoMemoData)
    ensures data.Obj? && (Truthy(Member(data, "memos")) || Truthy(Member(data, "positions"))) ==> e == None
  {
    if !data.Obj? then Some(BadFormat)
    else if !Truthy(Member(data, "memos")) && !Truthy(Member(data, "positions")) then Some(NoMemoData)
    else None
  }

  /** The store after a confirmed import of `data`: `memos` replaced
      wholesale, then each key of `positions` written on its own. */
  function ImportedItems(items: map<string, Value>, data: Value): map<string, Value> {
    var withMemos := if Truthy(Member(data, "memos")) then items["memos" := Member(data, "memos")] else items;
    var positions := FieldsOf(Member(data, "positions"));
    if Truthy(Member(data, "positions")) then SetEach(withMemos, Keys(positions), positions) else withMemos
  }

  /** The store after deleting the site `d`: its unified record, if truthy,
      and its three legacy keys are gone. */
  function PurgedItems(items: map<string, Value>, d: string): map<string, Value> {
    var withoutUnified :=
      if Truthy(Get(MemosIn(items), d)) then items["memos" := Obj(Delete(MemosIn(items), d))] else items;
    withoutUnified - {MemoPrefix + d, LastEditedPrefix + d, PositionPrefix + d}
  }

  /** `positions` holds the `position_` keys among `done`, with their values. */
  ghost predicate PositionsFrom(positions: Fields, items: map<string, Value>, done: seq<string>) {
    && (forall k :: Get(positions, k) == if StartsWith(k, PositionPrefix) && k in done then At(items, k) else Undefined)
    && (forall k :: k in Keys(positions) ==> StartsWith(k, PositionPrefix))
    && (positions == [] <==> forall j :: 0 <= j < |done| ==> !StartsWith(done[j], PositionPrefix))
  }

  /** `singleMemos` holds a made-up record for each legacy key among `done`. */
  ghost predicate LegacyFrom(singleMemos: Fields, items: map<string, Value>, done: seq<string>, now: int) {
    && (forall d :: Get(singleMemos, d) == if MemoPrefix + d in done then Obj(Synthesized(items, d, now)) else Undefined)
    && (forall d :: d in Keys(singleMemos) ==> MemoPrefix + d in done)
    && (singleMemos == [] <==> forall j :: 0 <= j < |done| ==> !StartsWith(done[j], MemoPrefix))
  }

  /** The keys visited after one more step. */
  lemma AppendedKey(done: seq<string>, key: string)
    ensures forall j :: 0 <= j < |done| ==> (done + [key])[j] == done[j]
    ensures forall k :: k in done + [key] <==> k in done || k == key
  {
  }

  lemma PositionsStep(positions: Fields, items: map<string, Value>, done: seq<string>, key: string)
    requires PositionsFrom(positions, items, done)
    ensures StartsWith(key, PositionPrefix) ==>
      PositionsFrom(Put(positions, key, At(items, key)), items, done + [key])
    ensures !StartsWith(key, PositionPrefix) ==> PositionsFrom(positions, items, done + [key])
  {
    if StartsWith(key, PositionPrefix) {
      PositionAdded(positions, items, done, key);
    } else {
      PositionSkipped(positions, items, done, key);
    }
  }

  lemma PositionAdded(positions: Fields, items: map<string, Value>, done: seq<string>, key: string)
    requires PositionsFrom(positions, items, done) && StartsWith(key, PositionPrefix)
    ensures PositionsFrom(Put(positions, key, At(items, key)), items, done + [key])
  {
    PositionValueAdded(positions, items, done, key);
    PositionNameAdded(positions, key, At(items, key));
    assert (done + [key])[|done|] == key;
  }

  lemma PositionValueAdded(positions: Fields, items: map<string, Value>, done: seq<string>, key: string)
    requires forall k :: Get(positions, k) == if StartsWith(k, PositionPrefix) && k in done then At(items, k) else Undefined
    requires StartsWith(key, PositionPrefix)
    ensures forall k :: Get(Put(positions, key, At(items, key)), k) ==
                        if StartsWith(k, PositionPrefix) && k in done + [key] then At(items, k) else Undefined
  {
    AppendedKey(done, key);
  }

  lemma PositionNameAdded(positions: Fields, key: string, v: Value)
    requires forall k :: k in Keys(positions) ==> StartsWith(k, PositionPrefix)
    requires StartsWith(key, PositionPrefix)
    ensures forall k :: k in Keys(Put(positions, key, v)) ==> StartsWith(k, PositionPrefix)
    ensures Put(positions, key, v) != []
  {
    assert key in Keys(Put(positions, key, v));
  }

  lemma PositionSkipped(positions: Fields, items: map<string, Value>, done: seq<string>, key: string)
    requires PositionsFrom(positions, items, done) && !StartsWith(key, PositionPrefix)
    ensures PositionsFrom(positions, items, done + [key])
  {
    AppendedKey(done, key);
  }

  lemma LegacyStep(singleMemos: Fields, items: map<string, Value>, done: seq<string>, key: string, now: int)
    requires LegacyFrom(singleMemos, items, done, now)
    ensures StartsWith(key, MemoPrefix) ==>
      LegacyFrom(Put(singleMemos, LegacyDomain(key), Obj(Synthesized(items, LegacyDomain(key), now))), items, done + [key], now)
    ensures !StartsWith(key, MemoPrefix) ==> LegacyFrom(singleMemos, items, done + [key], now)
  {
    if StartsWith(key, MemoPrefix) {
      LegacyAdded(singleMemos, items, done, key, now);
    } else {
      LegacySkipped(singleMemos, items, done, key, now);
    }
  }

  lemma LegacyAdded(singleMemos: Fields, items: map<string, Value>, done: seq<string>, key: string, now: int)
    requires LegacyFrom(singleMemos, items, done, now) && StartsWith(key, MemoPrefix)
    ensures LegacyFrom(Put(singleMemos, LegacyDomain(key), Obj(Synthesized(items, LegacyDomain(key), now))), items, done + [key], now)
  {
    AppendedKey(done, key);
    var domain := LegacyDomain(key);
    forall d ensures MemoPrefix + d == key <==> d == domain {
      PrefixInjective(MemoPrefix, d, domain);
    }
  }

  lemma LegacySkipped(singleMemos: Fields, items: map<string, Value>, done: seq<string>, key: string, now: int)
    requires LegacyFrom(singleMemos, items, done, now) && !StartsWith(key, MemoPrefix)
    ensures LegacyFrom(singleMemos, items, done + [key], now)
  {
    AppendedKey(done, key);
    forall d ensures MemoPrefix + d != key {
      assert StartsWith(MemoPrefix + d, MemoPrefix);
    }
  }

  /** Once every stored key is visited, the collected parts describe the store. */
  lemma CollectedAll(positions: Fields, singleMemos: Fields, items: map<string, Value>, keys: seq<string>, now: int)
    requires forall k :: k in keys <==> k in items
    requires PositionsFrom(positions, items, keys) && LegacyFrom(singleMemos, items, keys, now)
    ensures forall k :: Get(positions, k) == if StartsWith(k, PositionPrefix) then At(items, k) else Undefined
    ensures positions == [] <==> !AnyPosition(items)
    ensures forall d :: Get(singleMemos, d) == if HasLegacy(items, d) then Obj(Synthesized(items, d, now)) else Undefined
    ensures singleMemos != [] <==> AnyLegacy(items)
    ensures forall d :: d in Keys(singleMemos) ==> HasLegacy(items, d)
    ensures forall k :: k in Keys(positions) ==> StartsWith(k, PositionPrefix)
  {
    forall k | StartsWith(k, PositionPrefix) && k !in keys ensures At(items, k) == Undefined {
    }
    if singleMemos != [] {
      var j :| 0 <= j < |keys| && StartsWith(keys[j], MemoPrefix);
      assert keys[j] in items;
    } else {
      forall k | k in items ensures !StartsWith(k, MemoPrefix) {
        var j :| 0 <= j < |keys| && keys[j] == k;
      }
    }
    if positions == [] {
      forall k | k in items ensures !StartsWith(k, PositionPrefix) {
        var j :| 0 <= j < |keys| && keys[j] == k;
      }
    } else {
      var j :| 0 <= j < |keys| && StartsWith(keys[j], PositionPrefix);
      assert keys[j] in items;
    }
  }

  /** The `for (const key in data)` loop of `exportData`, stated over the
      visited keys. */
  method CollectLoop(items: map<string, Value>, keys: seq<string>, now: int)
    returns (positions: Fields, singleMemos: Fields, hasOldFormatMemos: bool)
    ensures PositionsFrom(positions, items, keys)
    ensures LegacyFrom(singleMemos, items, keys, now)
    ensures hasOldFormatMemos <==> singleMemos != []
  {
    positions := [];
    singleMemos := [];
    hasOldFormatMemos := false;
    for i := 0 to |keys|
      invariant PositionsFrom(positions, items, keys[..i])
      invariant LegacyFrom(singleMemos, items, keys[..i], now)
      invariant hasOldFormatMemos <==> singleMemos != []
    {
      var key := keys[i];
      TakeNext(keys, i);
      ghost var done := keys[..i];
      PositionsStep(positions, items, done, key);
      LegacyStep(singleMemos, items, done, key, now);
      if StartsWith(key, PositionPrefix) {
        positions := Put(positions, key, At(items, key));
      }
      if StartsWith(key, MemoPrefix) {
        var domain := LegacyDomain(key);
        singleMemos := Put(singleMemos, domain, Obj(Synthesized(items, domain, now)));
        hasOldFormatMemos := true;
      }
      assert PositionsFrom(positions, items, done + [key]);
      assert LegacyFrom(singleMemos, items, done + [key], now);
    }
    assert keys[..|keys|] == keys;
  }

  /** What `exportData` collects from the store before it combines memos:
      every `position_` key with its value, a made-up record for every
      legacy key, and whether there was one. */
  method CollectExportParts(items: map<string, Value>, keys: seq<string>, now: int)
    returns (positions: Fields, singleMemos: Fields, hasOldFormatMemos: bool)
    requires forall k :: k in keys <==> k in items
    ensures forall k :: Get(positions, k) == if StartsWith(k, PositionPrefix) then At(items, k) else Undefined
    ensures positions == [] <==> !AnyPosition(items)
    ensures forall d :: Get(singleMemos, d) == if HasLegacy(items, d) then Obj(Synthesized(items, d, now)) else Undefined
    ensures hasOldFormatMemos <==> AnyLegacy(items)
    ensures hasOldFormatMemos <==> singleMemos != []
    ensures forall d :: d in Keys(singleMemos) ==> HasLegacy(items, d)
    ensures forall k :: k in Keys(positions) ==> StartsWith(k, PositionPrefix)
  {
    positions, singleMemos, hasOldFormatMemos := CollectLoop(items, keys, now);
    CollectedAll(positions, singleMemos, items, keys, now);
  }

  /** `Object.assign(combinedMemos, singleMemos)`, done only when a legacy
      key exists, leaves the record `ExportedRecord` describes under every
      domain, and is empty only when both parts are. */
  lemma CombinedIsExported(items: map<string, Value>, singleMemos: Fields, now: int, combined: Fields)
    requires forall d :: Get(singleMemos, d) == if HasLegacy(items, d) then Obj(Synthesized(items, d, now)) else Undefined
    requires forall d :: d in Keys(singleMemos) ==> HasLegacy(items, d)
    requires combined == if singleMemos != [] then AssignKeys(MemosIn(items), Keys(singleMemos), singleMemos) else MemosIn(items)
    ensures forall d :: Get(combined, d) == ExportedRecord(items, d, now)
    ensures combined == [] <==> MemosIn(items) == [] && singleMemos == []
  {
    forall d ensures Get(combined, d) == ExportedRecord(items, d, now) {
      if HasLegacy(items, d) {
        assert Get(singleMemos, d) != Undefined;
      } else if singleMemos != [] {
        assert d !in Keys(singleMemos);
      }
    }
  }

  /** Sorting the listed domains newest first keeps each exactly once. */
  lemma SortedSites(domains: seq<string>, sorted: seq<string>, memos: Fields)
    requires Distinct(domains)
    requires sorted == SortBy(domains, NewestFirst(memos))
    ensures forall d :: d in sorted <==> d in domains
    ensures Distinct(sorted)
    ensures forall i, j :: 0 <= i < j < |sorted| ==> LastEdited(Get(memos, sorted[i])) >= LastEdited(Get(memos, sorted[j]))
  {
    forall d ensures d in sorted <==> d in domains {
      assert d in sorted <==> d in multiset(sorted);
    }
    DistinctPermutation(domains, sorted);
    assert forall i :: 0 <= i < |sorted| ==> NewestFirst(memos)(sorted[i]) == -LastEdited(Get(memos, sorted[i]));
  }

  /** `key.startsWith('memo_')` */
  predicate IsLegacyKey(key: string) {
    StartsWith(key, MemoPrefix)
  }

  /** After the merge has visited the legacy keys `done`: `memos` reads the
      listed record for their domains and the unified one elsewhere, and
      `domains` lists the unified names and those domains, each once. */
  ghost predicate MergedFrom(memos: Fields, domains: seq<string>, items: map<string, Value>, done: seq<string>, now: int) {
    DomainsFrom(domains, items, done) && MemosFrom(memos, items, done, now)
  }

  ghost predicate DomainsFrom(domains: seq<string>, items: map<string, Value>, done: seq<string>) {
    && Distinct(domains)
    && (forall d :: d in domains <==> d in Keys(MemosIn(items)) || MemoPrefix + d in done)
  }

  ghost predicate MemosFrom(memos: Fields, items: map<string, Value>, done: seq<string>, now: int) {
    && (forall d :: Get(memos, d) == if MemoPrefix + d in done then ListedRecord(items, d, now) else Get(MemosIn(items), d))
    && (memos == [] <==> MemosIn(items) == [] && done == [])
  }

  /** One step of the merge loop of `loadSavedSites`. */
  lemma MergeStep(memos: Fields, domains: seq<string>, items: map<string, Value>, done: seq<string>, key: string, now: int)
    requires MergedFrom(memos, domains, items, done, now)
    requires IsLegacyKey(key) && key in items && key !in done
    ensures var domain := LegacyDomain(key);
      var fill := !Truthy(Get(memos, domain));
      MergedFrom(if fill then Put(memos, domain, Obj(Synthesized(items, domain, now))) else memos,
                 if fill && domain !in domains then domains + [domain] else domains,
                 items, done + [key], now)
  {
    var domain := LegacyDomain(key);
    forall d ensures MemoPrefix + d in done + [key] <==> MemoPrefix + d in done || d == domain {
      PrefixInjective(MemoPrefix, d, domain);
    }
    assert Get(memos, domain) == Get(MemosIn(items), domain);
    if Truthy(Get(memos, domain)) {
      assert domain in Keys(MemosIn(items));
      DomainsStep(domains, items, done, key, false);
      MemosKeep(memos, items, done, key, now);
    } else {
      DomainsStep(domains, items, done, key, true);
      MemosFill(memos, items, done, key, now);
    }
  }

  /** The domain list after a step: the domain is added when the merge
      fills it in and it is not listed yet. */
  lemma DomainsStep(domains: seq<string>, items: map<string, Value>, done: seq<string>, key: string, fill: bool)
    requires DomainsFrom(domains, items, done) && IsLegacyKey(key)
    requires forall d :: MemoPrefix + d in done + [key] <==> MemoPrefix + d in done || d == LegacyDomain(key)
    requires !fill ==> LegacyDomain(key) in Keys(MemosIn(items))
    ensures var domain := LegacyDomain(key);
      DomainsFrom(if fill && domain !in domains then domains + [domain] else domains, items, done + [key])
  {
    var domain := LegacyDomain(key);
    if fill && domain !in domains {
      DistinctSnoc(domains, domain);
      assert forall d :: d in domains + [domain] <==> d in domains || d == domain;
    }
  }

  /** A domain whose unified record is truthy keeps it. */
  lemma MemosKeep(memos: Fields, items: map<string, Value>, done: seq<string>, key: string, now: int)
    requires MemosFrom(memos, items, done, now) && IsLegacyKey(key)
    requires forall d :: MemoPrefix + d in done + [key] <==> MemoPrefix + d in done || d == LegacyDomain(key)
    requires Truthy(Get(memos, LegacyDomain(key))) && Get(memos, LegacyDomain(key)) == Get(MemosIn(items), LegacyDomain(key))
    ensures MemosFrom(memos, items, done + [key], now)
  {
    assert memos != [];
  }

  /** A domain without a truthy unified record gets the made-up one. */
  lemma MemosFill(memos: Fields, items: map<string, Value>, done: seq<string>, key: string, now: int)
    requires MemosFrom(memos, items, done, now) && IsLegacyKey(key) && key in items
    requires forall d :: MemoPrefix + d in done + [key] <==> MemoPrefix + d in done || d == LegacyDomain(key)
    requires !Truthy(Get(memos, LegacyDomain(key))) && Get(memos, LegacyDomain(key)) == Get(MemosIn(items), LegacyDomain(key))
    ensures var domain := LegacyDomain(key);
      MemosFrom(Put(memos, domain, Obj(Synthesized(items, domain, now))), items, done + [key], now)
  {
    var domain := LegacyDomain(key);
    var memos' := Put(memos, domain, Obj(Synthesized(items, domain, now)));
    assert HasLegacy(items, domain);
    forall d ensures Get(memos', d) == if MemoPrefix + d in done + [key] then ListedRecord(items, d, now) else Get(MemosIn(items), d) {
      if d == domain {
        assert Get(memos', d) == Obj(Synthesized(items, domain, now));
      } else {
        assert Get(memos', d) == Get(memos, d);
      }
    }
    assert Get(memos', domain) != Undefined;
  }

  /** Once every legacy key is visited, the merge describes the store. */
  lemma MergedAll(memos: Fields, domains: seq<string>, items: map<string, Value>, keys: seq<string>, now: int)
    requires forall k :: k in keys <==> k in items
    requires MergedFrom(memos, domains, items, Filter(keys, IsLegacyKey), now)
    ensures forall d :: Get(memos, d) == ListedRecord(items, d, now)
    ensures Distinct(domains)
    ensures forall d :: d in domains <==> IsListed(items, d)
    ensures memos == [] <==> MemosIn(items) == [] && !AnyLegacy(items)
  {
    var memoKeys := Filter(keys, IsLegacyKey);
    forall d ensures MemoPrefix + d in memoKeys <==> HasLegacy(items, d) {
      assert IsLegacyKey(MemoPrefix + d);
    }
    if memoKeys != [] {
      assert memoKeys[0] in keys && IsLegacyKey(memoKeys[0]);
    }
    if AnyLegacy(items) {
      var k :| k in items && StartsWith(k, MemoPrefix);
      assert IsLegacyKey(k);
      assert MemoPrefix + LegacyDomain(k) in memoKeys;
    }
  }

  /** The rows built from the sorted domains show each listed domain once,
      newest first, with the preview of its listed record. */
  lemma RowsListed(items: map<string, Value>, now: int, memos: Fields, sorted: seq<string>, rows: seq<SiteRow>)
    requires forall d :: Get(memos, d) == ListedRecord(items, d, now)
    requires forall d :: d in sorted <==> IsListed(items, d)
    requires Distinct(sorted)
    requires forall i, j :: 0 <= i < j < |sorted| ==> LastEdited(Get(memos, sorted[i])) >= LastEdited(Get(memos, sorted[j]))
    requires |rows| == |sorted|
    requires forall i :: 0 <= i < |rows| ==> rows[i] == SiteRow(sorted[i], Preview(Member(Get(memos, sorted[i]), "content")))
    ensures forall d :: (exists i :: 0 <= i < |rows| && rows[i].domain == d) <==> IsListed(items, d)
    ensures forall i, j :: 0 <= i < j < |rows| ==> rows[i].domain != rows[j].domain
    ensures forall i, j :: 0 <= i < j < |rows| ==>
      LastEdited(ListedRecord(items, rows[i].domain, now)) >= LastEdited(ListedRecord(items, rows[j].domain, now))
    ensures forall i :: 0 <= i < |rows| ==>
      rows[i].preview == Preview(Member(ListedRecord(items, rows[i].domain, now), "content"))
  {
    forall d ensures (exists i :: 0 <= i < |rows| && rows[i].domain == d) <==> IsListed(items, d) {
      if d in sorted {
        var i :| 0 <= i < |sorted| && sorted[i] == d;
        assert rows[i].domain == d;
      }
    }
  }

  class Popup {
    const area: LocalArea

    constructor (area: LocalArea)
      ensures this.area == area
    {
      this.area := area;
    }

    /** The merge at the head of `loadSavedSites`: every legacy key whose
        domain has no truthy unified record adds a made-up one. Nothing is
        written back. */
    method MergeSites(now: int) returns (memos: Fields, domains: seq<string>)
      requires DistinctKeys(MemosIn(area.items))
      ensures forall d :: Get(memos, d) == ListedRecord(area.items, d, now)
      ensures Distinct(domains)
      ensures forall d :: d in domains <==> IsListed(area.items, d)
      ensures memos == [] <==> MemosIn(area.items) == [] && !AnyLegacy(area.items)
    {
      var keys := area.GetAllKeys();
      memos := MemosIn(area.items);
      domains := Keys(memos);
      var memoKeys := Filter(keys, IsLegacyKey);
      FilterDistinct(keys, IsLegacyKey);
      for i := 0 to |memoKeys|
        invariant MergedFrom(memos, domains, area.items, memoKeys[..i], now)
      {
        var key := memoKeys[i];
        TakeNext(memoKeys, i);
        DistinctTake(memoKeys, i);
        assert key in keys && IsLegacyKey(key);
        MergeStep(memos, domains, area.items, memoKeys[..i], key, now);
        var domain := LegacyDomain(key);
        if !Truthy(Get(memos, domain)) {
          memos := Put(memos, domain, Obj(Synthesized(area.items, domain, now)));
          if domain !in domains {
            domains := domains + [domain];
          }
        }
      }
      assert memoKeys[..|memoKeys|] == memoKeys;
      MergedAll(memos, domains, area.items, keys, now);
    }

    /** `loadSavedSites`: the listed domains, newest first, each with the
        preview of its listed record. */
    method LoadSavedSites(now: int) returns (rows: seq<SiteRow>)
      requires DistinctKeys(MemosIn(area.items))
      ensures forall d :: (exists i :: 0 <= i < |rows| && rows[i].domain == d) <==> IsListed(area.items, d)
      ensures forall i, j :: 0 <= i < j < |rows| ==> rows[i].domain != rows[j].domain
      ensures forall i, j :: 0 <= i < j < |rows| ==>
        LastEdited(ListedRecord(area.items, rows[i].domain, now)) >= LastEdited(ListedRecord(area.items, rows[j].domain, now))
      ensures forall i :: 0 <= i < |rows| ==>
        rows[i].preview == Preview(Member(ListedRecord(area.items, rows[i].domain, now), "content"))
    {
      var memos, domains := MergeSites(now);
      var sorted := SortBy(domains, NewestFirst(memos));
      SortedSites(domains, sorted, memos);
      rows := seq(|sorted|, i requires 0 <= i < |sorted| =>
        SiteRow(sorted[i], Preview(Member(Get(memos, sorted[i]), "content"))));
      RowsListed(area.items, now, memos, sorted, rows);
    }

    /** The confirmed delete of a site: the unified record, if truthy, is
        removed and written back, then the three legacy keys are removed. */
    method DeleteSite(domain: string)
      modifies area
      ensures area.items == PurgedItems(old(area.items), domain)
    {
      var memos := MemosIn(area.items);
      var hasChanges := Truthy(Get(memos, domain));
      if hasChanges {
        area.Set("memos", Obj(Delete(memos, domain)));
      }
      area.Remove({MemoPrefix + domain, LastEditedPrefix + domain, PositionPrefix + domain});
    }

    /** `exportData` as written: nothing when there are no memos and no
        positions; otherwise every `position_` key, every unified record
        with each legacy record laid over it, and `mixed` exactly when a
        legacy key exists. */
    method ExportData(now: int, exportDate: string) returns (r: Option<Backup>)
      ensures r.None? <==> MemosIn(area.items) == [] && !AnyLegacy(area.items) && !AnyPosition(area.items)
      ensures r.Some? ==>
        && (forall d :: Get(r.value.memos, d) == ExportedRecord(area.items, d, now))
        && (forall k :: Get(r.value.positions, k) == if StartsWith(k, PositionPrefix) then At(area.items, k) else Undefined)
        && (forall k :: k in Keys(r.value.positions) ==> StartsWith(k, PositionPrefix))
        && (r.value.mixed <==> AnyLegacy(area.items))
        && r.value.exportDate == exportDate
    {
      var keys := area.GetAllKeys();
      var memos := MemosIn(area.items);
      var positions, singleMemos, hasOldFormatMemos := CollectExportParts(area.items, keys, now);
      var combinedMemos := memos;
      if hasOldFormatMemos {
        combinedMemos := AssignKeys(combinedMemos, Keys(singleMemos), singleMemos);
      }
      CombinedIsExported(area.items, singleMemos, now, combinedMemos);
      if combinedMemos == [] && positions == [] {
        r := None;
      } else {
        r := Some(Backup(combinedMemos, positions, exportDate, hasOldFormatMemos));
      }
    }

    /** `exportData` with the merge `loadSavedSites` shows: a legacy key
        fills in only a domain without a truthy unified record. */
    method ExportDataCorrected(now: int, exportDate: string) returns (r: Option<Backup>)
      requires DistinctKeys(MemosIn(area.items))
      ensures r.None? <==> MemosIn(area.items) == [] && !AnyLegacy(area.items) && !AnyPosition(area.items)
      ensures r.Some? ==>
        && (forall d :: Get(r.value.memos, d) == ListedRecord(area.items, d, now))
        && (forall k :: Get(r.value.positions, k) == if StartsWith(k, PositionPrefix) then At(area.items, k) else Undefined)
        && (forall k :: k in Keys(r.value.positions) ==> StartsWith(k, PositionPrefix))
        && (r.value.mixed <==> AnyLegacy(area.items))
        && r.value.exportDate == exportDate
    {
      var memos, _ := MergeSites(now);
      var keys := area.GetAllKeys();
      var positions, _, hasOldFormatMemos := CollectExportParts(area.items, keys, now);
      if memos == [] && positions == [] {
        r := None;
      } else {
        r := Some(Backup(memos, positions, exportDate, hasOldFormatMemos));
      }
    }

    /** `importData` after the file is parsed: a rejected file or a
        declined confirmation writes nothing. */
    method ImportData(data: Value, confirmed: bool) returns (r: Result<bool, string>)
      modifies area
      ensures ImportError(data).Some? ==> r == Failure(ImportError(data).value) && area.items == old(area.items)
      ensures ImportError(data).None? && !confirmed ==> r == Success(false) && area.items == old(area.items)
      ensures ImportError(data).None? && confirmed ==> r == Success(true) && area.items == ImportedItems(old(area.items), data)
    {
      var e := ImportError(data);
      if e.Some? {
        return Failure(e.value);
      }
      if !confirmed {
        return Success(false);
      }
      if Truthy(Member(data, "memos")) {
        area.Set("memos", Member(data, "memos"));
      }
      if Truthy(Member(data, "positions")) {
        var positions := FieldsOf(Member(data, "positions"));
        var ks := Keys(positions);
        ghost var start := area.items;
        for i := 0 to |ks|
          invariant area.items == SetEach(start, ks[..i], positions)
        {
          SetEachStep(start, ks, i, positions);
          area.Set(ks[i], Get(positions, ks[i]));
        }
        assert ks[..|ks|] == ks;
      }
      r := Success(true);
    }
  }

  /** Importing a backup replaces `memos` and writes only `position_`
      keys, so the listed record of `d` afterwards is the backup's record,
      or the made-up one when that is falsy and a legacy key exists. */
  lemma ImportedListed(items: map<string, Value>, b: Backup, now: int, d: string)
    requires forall k :: k in Keys(b.positions) ==> StartsWith(k, PositionPrefix)
    ensures ListedRecord(ImportedItems(items, b.ToValue()), d, now) ==
      if !Truthy(Get(b.memos, d)) && HasLegacy(items, d) then Obj(Synthesized(items, d, now)) else Get(b.memos, d)
  {
    var after := ImportedItems(items, b.ToValue());
    assert !StartsWith("memos", PositionPrefix);
    assert MemosIn(after) == b.memos;
    LegacyKeysArePlain(d);
    ImportedKeeps(items, b.ToValue(), MemoPrefix + d);
    ImportedKeeps(items, b.ToValue(), LastEditedPrefix + d);
  }

  /** A site's legacy keys are neither `memos` nor position keys. */
  lemma LegacyKeysArePlain(d: string)
    ensures MemoPrefix + d != "memos" && !StartsWith(MemoPrefix + d, PositionPrefix)
    ensures LastEditedPrefix + d != "memos" && !StartsWith(LastEditedPrefix + d, PositionPrefix)
  {
    assert (MemoPrefix + d)[0] == 'm' && (MemoPrefix + d)[4] == '_';
    assert (LastEditedPrefix + d)[0] == 'l';
  }

  /** An import leaves every key other than `memos` and the backup's
      position keys as it was. */
  lemma ImportedKeeps(items: map<string, Value>, data: Value, k: string)
    requires k != "memos" && k !in Keys(FieldsOf(Member(data, "positions")))
    ensures k in ImportedItems(items, data) <==> k in items
    ensures At(ImportedItems(items, data), k) == At(items, k)
  {
  }

  /** Exporting with `ExportDataCorrected` and importing the file lists
      every domain with the record it had. */
  lemma CorrectedExportRoundTrip(items: map<string, Value>, b: Backup, now: int)
    requires forall d :: Get(b.memos, d) == ListedRecord(items, d, now)
    requires forall k :: k in Keys(b.positions) ==> StartsWith(k, PositionPrefix)
    ensures forall d :: ListedRecord(ImportedItems(items, b.ToValue()), d, now) == ListedRecord(items, d, now)
  {
    forall d ensures ListedRecord(ImportedItems(items, b.ToValue()), d, now) == ListedRecord(items, d, now) {
      ImportedListed(items, b, now, d);
    }
  }

  /** A store whose unified record for `a.com` was edited after the legacy
      key `memo_a.com` was written. */
  const EditedOverLegacy: map<string, Value> :=
    map["memos" := Obj([("a.com", Obj([("content", Str("edited"))]))]), "memo_a.com" := Str("stale")]

  /** As written, `exportData` lets the legacy record replace the unified
      one, so importing its file brings back the stale content. */
  lemma AsWrittenExportRoundTripFails(b: Backup)
    requires forall d :: Get(b.memos, d) == ExportedRecord(EditedOverLegacy, d, 0)
    requires forall k :: k in Keys(b.positions) ==> StartsWith(k, PositionPrefix)
    ensures ListedRecord(ImportedItems(EditedOverLegacy, b.ToValue()), "a.com", 0) != ListedRecord(EditedOverLegacy, "a.com", 0)
    ensures Member(ListedRecord(ImportedItems(EditedOverLegacy, b.ToValue()), "a.com", 0), "content") == Str("stale")
  {
    EditedOverLegacyRecords();
    var stale := Obj(Synthesized(EditedOverLegacy, "a.com", 0));
    ImportedListed(EditedOverLegacy, b, 0, "a.com");
    assert ListedRecord(ImportedItems(EditedOverLegacy, b.ToValue()), "a.com", 0) == stale;
  }

  /** In `EditedOverLegacy`, `a.com` is exported as the made-up record,
      whose content is the stale one, and listed with the edited one. */
  lemma EditedOverLegacyRecords()
    ensures ExportedRecord(EditedOverLegacy, "a.com", 0) == Obj(Synthesized(EditedOverLegacy, "a.com", 0))
    ensures Member(Obj(Synthesized(EditedOverLegacy, "a.com", 0)), "content") == Str("stale")
    ensures Member(ListedRecord(EditedOverLegacy, "a.com", 0), "content") == Str("edited")
  {
    var items := EditedOverLegacy;
    assert HasLegacy(items, "a.com") by {
      assert MemoPrefix + "a.com" == "memo_a.com";
    }
    var unified := Obj([("content", Str("edited"))]);
    assert Get(MemosIn(items), "a.com") == unified;
    assert Member(unified, "content") == Str("edited");
  }
}

/** The `order` field the older template code keeps on each record of the
    `templates` object in `chrome.storage.local` (`content.js`,
    `templates.js`): the next order on save, the listing sort and the
    reindex after a drag. */
module TemplateOrder {
  import opened Seqs
  import opened Json

  /** `Number.MAX_SAFE_INTEGER` */
  const MaxSafeInteger := 9007199254740991

  /** `template.order ?? fallback`, read as a number. */
  function OrderOr(rec: Value, fallback: int): (n: int)
    ensures Member(rec, "order").Num? ==> n == Member(rec, "order").n
    ensures !Member(rec, "order").Num? ==> n == fallback
  {
    match Member(rec, "order")
    case Num(n) => n
    case _ => fallback
  }

  /** `Object.values(templates).reduce((max, t) => Math.max(max, t.order ?? -1), -1)` */
  function MaxOrder(templates: Fields): (m: int)
    ensures m >= -1
    ensures forall i :: 0 <= i < |templates| ==> OrderOr(templates[i].1, -1) <= m
    ensures m == -1 || exists i :: 0 <= i < |templates| && OrderOr(templates[i].1, -1) == m
  {
    if templates == [] then -1
    else
      var rest := MaxOrder(templates[..|templates| - 1]);
      var last := OrderOr(templates[|templates| - 1].1, -1);
      assert forall i :: 0 <= i < |templates| - 1 ==> templates[..|templates| - 1][i] == templates[i];
      if last > rest then last else rest
  }

  /** The order a newly saved template gets: one above the greatest
      existing order, and 0 when no template has one. */
  function NextOrder(templates: Fields): (n: int)
    ensures n >= 0
    ensures forall i :: 0 <= i < |templates| ==> OrderOr(templates[i].1, -1) < n
    ensures (forall i :: 0 <= i < |templates| ==> OrderOr(templates[i].1, -1) < 0) ==> n == 0
    ensures n == 0 || exists i :: 0 <= i < |templates| && OrderOr(templates[i].1, -1) == n - 1
  {
    MaxOrder(templates) + 1
  }

  /** `entry[1].order ?? Number.MAX_SAFE_INTEGER`: the sort key, a missing
      order sorting last. */
  function SortKey(e: (string, Value)): int {
    OrderOr(e.1, MaxSafeInteger)
  }

  /** `Object.entries(templates).sort((a, b) => orderA - orderB)`: a
      stable sort ascending by order. */
  function SortByOrder(es: Fields): (r: Fields)
    ensures SortedBy(r, SortKey)
    ensures multiset(r) == multiset(es)
  {
    SortBy(es, SortKey)
  }

  /** The object the drag-end reindex writes: for each listed name that
      names a stored template, in list order, that record with `order` set
      to the name's index (`{...templates[name], order: index}`). */
  function Reindexed(templates: Fields, names: seq<string>): Fields
    decreases |names|
  {
    if names == [] then []
    else
      var i := |names| - 1;
      var prev := Reindexed(templates, names[..i]);
      if Truthy(Get(templates, names[i])) then
        Put(prev, names[i], Obj(Put(FieldsOf(Get(templates, names[i])), "order", Num(i))))
      else prev
  }

  /** The `forEach((name, index) => ...)` loop of the reindex. */
  method Reindex(templates: Fields, names: seq<string>) returns (newTemplates: Fields)
    ensures newTemplates == Reindexed(templates, names)
  {
    newTemplates := [];
    for index := 0 to |names|
      invariant newTemplates == Reindexed(templates, names[..index])
    {
      var name := names[index];
      assert names[..index + 1][..index] == names[..index];
      if Truthy(Get(templates, name)) {
        newTemplates := Put(newTemplates, name, Obj(Put(FieldsOf(Get(templates, name)), "order", Num(index))));
      }
    }
    assert names[..|names|] == names;
  }

  /** With distinct names, the reindexed object holds exactly the listed
      names that name a stored template, in list order. */
  lemma {:induction false} ReindexedKeys(templates: Fields, names: seq<string>)
    requires Distinct(names)
    ensures Keys(Reindexed(templates, names)) == Filter(names, TruthyAt(templates))
  {
    if names != [] {
      var i := |names| - 1;
      var init := names[..i];
      assert names == init + [names[i]];
      assert Distinct(init);
      ReindexedKeys(templates, init);
      var prev := Reindexed(templates, init);
      forall j | 0 <= j < |Keys(prev)| ensures Keys(prev)[j] != names[i] {
        assert Keys(prev)[j] in init;
      }
      assert TruthyAt(templates)(names[i]) == Truthy(Get(templates, names[i]));
    }
  }

  /** Templates the list does not name, or that are not stored, are dropped. */
  lemma {:induction false} ReindexedDrops(templates: Fields, names: seq<string>, k: string)
    requires k !in names || !Truthy(Get(templates, k))
    ensures Get(Reindexed(templates, names), k) == Undefined
  {
    if names != [] {
      var i := |names| - 1;
      assert names == names[..i] + [names[i]];
      ReindexedDrops(templates, names[..i], k);
    }
  }

  /** With distinct names, each kept record has `order` equal to its index
      in the list. */
  lemma {:induction false} ReindexedRecord(templates: Fields, names: seq<string>, i: nat)
    requires Distinct(names) && i < |names| && Truthy(Get(templates, names[i]))
    ensures Get(Reindexed(templates, names), names[i]) == Obj(Put(FieldsOf(Get(templates, names[i])), "order", Num(i)))
  {
    var last := |names| - 1;
    var init := names[..last];
    if i < last {
      assert Distinct(init) && init[i] == names[i] && names[i] != names[last] by {
        DistinctInit(names);
      }
      ReindexedRecord(templates, init, i);
      ReindexedOther(templates, names, names[i]);
    } else {
      ReindexedLast(templates, names);
    }
  }

  /** The last listed name, when stored, reads its record with `order` set
      to the last index. */
  lemma ReindexedLast(templates: Fields, names: seq<string>)
    requires names != [] && Truthy(Get(templates, names[|names| - 1]))
    ensures Get(Reindexed(templates, names), names[|names| - 1])
      == Obj(Put(FieldsOf(Get(templates, names[|names| - 1])), "order", Num(|names| - 1)))
  {
  }

  /** The last listed name does not change what the others read. */
  lemma ReindexedOther(templates: Fields, names: seq<string>, k: string)
    requires names != [] && k != names[|names| - 1]
    ensures Get(Reindexed(templates, names), k) == Get(Reindexed(templates, names[..|names| - 1]), k)
  {
  }

  /** The fields of a reindexed record other than `order` are those of the stored one. */
  lemma ReindexKeepsFields(rec: Value, index: int, f: string)
    requires f != "order"
    ensures Get(Put(FieldsOf(rec), "order", Num(index)), f) == Member(rec, f)
  {
  }
}

/** The old template management page (`templates.js`): form checks,
    the list sorted by `order`, the drag-and-drop swap of two rows and the
    reindex it triggers. Requests go to the old background page. */
module TemplatesPage {
  import opened Wrappers
  import opened Seqs
  import opened Text
  import opened Json
  import opened Chrome
  import opened DataStorage
  import opened TemplateOrder
  import opened Dom
  import LegacyBackground

  const NameRequired := "请输入模板名称"
  const ContentRequired := "请输入模板内容"
  const PreviewLength := 100

  /** The save button's checks on the trimmed fields: the name first,
      then the content. */
  function ValidateForm(name: string, content: string): (r: Result<(string, string), string>)
    ensures r.Success? <==> Trim(name) != [] && Trim(content) != []
    ensures r.Success? ==> r.value == (Trim(name), Trim(content))
    ensures Trim(name) == [] ==> r == Failure(NameRequired)
    ensures Trim(name) != [] && Trim(content) == [] ==> r == Failure(ContentRequired)
  {
    var n := Trim(name);
    var c := Trim(content);
    if n == [] then Failure(NameRequired)
    else if c == [] then Failure(ContentRequired)
    else Success((n, c))
  }

  /** A row's preview: the content without tags, cut to 100 characters. */
  function PreviewOf(content: Value): (p: string)
    ensures |p| <= PreviewLength && |p| <= |StripTags(TextOf(content))|
    ensures p == StripTags(TextOf(content))[..|p|]
    ensures |StripTags(TextOf(content))| <= PreviewLength ==> p == StripTags(TextOf(content))
    ensures |StripTags(TextOf(content))| > PreviewLength ==> |p| == PreviewLength
    ensures NoTag(p)
  {
    var text := StripTags(TextOf(content));
    StripTagsNoTag(TextOf(content));
    var p := if |text| <= PreviewLength then text else text[..PreviewLength];
    NoTagPrefix(text, |p|);
    p
  }

  lemma NoTagPrefix(s: string, n: nat)
    requires NoTag(s) && n <= |s|
    ensures NoTag(s[..n])
  {
    forall i, j | 0 <= i < j < n && s[..n][i] == '<' ensures s[..n][j] != '>' {
      assert s[i] == '<';
    }
  }

  /** One row of the list. */
  datatype Row = Row(name: string, preview: string)

  /** The rows' names, top to bottom. */
  function RowNames(rows: seq<Row>): (names: seq<string>)
    ensures |names| == |rows| && forall i :: 0 <= i < |rows| ==> names[i] == rows[i].name
  {
    seq(|rows|, i requires 0 <= i < |rows| => rows[i].name)
  }

  /** The rows `loadTemplates` renders: one per stored template, sorted by
      `order` (a missing one last), each previewing the content stored
      under its name. */
  function Rows(templates: Fields): (rows: seq<Row>)
    ensures |rows| == |templates|
    ensures multiset(RowNames(rows)) == multiset(Keys(templates))
    ensures forall i :: 0 <= i < |rows| ==> rows[i].preview == PreviewOf(Member(Get(templates, rows[i].name), "content"))
  {
    var sorted := SortByOrder(templates);
    assert |multiset(sorted)| == |multiset(templates)|;
    var rows := seq(|sorted|, i requires 0 <= i < |sorted| =>
      Row(sorted[i].0, PreviewOf(Member(Get(templates, sorted[i].0), "content"))));
    assert RowNames(rows) == Keys(sorted);
    KeysMultiset(sorted, templates);
    rows
  }

  /** The rows come out sorted by `order`. */
  lemma RowsSorted(templates: Fields)
    requires DistinctKeys(templates)
    ensures var rows := Rows(templates);
      forall i, j :: 0 <= i < j < |rows| ==>
        OrderOr(Get(templates, rows[i].name), MaxSafeInteger) <= OrderOr(Get(templates, rows[j].name), MaxSafeInteger)
  {
    var sorted := SortByOrder(templates);
    var rows := Rows(templates);
    assert forall i :: 0 <= i < |rows| ==> rows[i].name == sorted[i].0;
    PermutedGet(templates, sorted);
    assert forall i, j :: 0 <= i < j < |sorted| ==> SortKey(sorted[i]) <= SortKey(sorted[j]);
  }

  /** Moving an element one place, either way, exchanges it with its
      neighbour. */
  lemma SwapAdjacent(s: seq<string>, i: nat)
    requires i + 1 < |s|
    ensures Moved(s, i, i + 1) == Swapped(s, i, i + 1)
    ensures Moved(s, i + 1, i) == Swapped(s, i + 1, i)
  {
    MovedAt(s, i, i + 1);
    MovedAt(s, i + 1, i);
  }

  /** A drop onto a row further down: the dragged row is moved to the
      target's place, then the target to the dragged row's old place. */
  lemma SwapByMovesDown(s: seq<string>, i: nat, j: nat)
    requires i + 1 < j < |s|
    ensures Moved(Moved(s, i, j), j - 1, i) == Swapped(s, i, j)
  {
    var s1 := Moved(s, i, j);
    MovedAt(s, i, j);
    MovedAt(s1, j - 1, i);
  }

  /** A drop onto a row further up: the dragged row is moved just below
      the target, then the target to the dragged row's old place. */
  lemma SwapByMovesUp(s: seq<string>, i: nat, j: nat)
    requires j + 1 < i < |s|
    ensures Moved(Moved(s, i, j + 1), j, i) == Swapped(s, i, j)
  {
    var s1 := Moved(s, i, j + 1);
    MovedAt(s, i, j + 1);
    MovedAt(s1, j, i);
  }

  /** The children after `handleDrop` of `src` onto `dest`, in the page's
      own steps: a row dropped on the row just above it goes before it;
      otherwise the dragged row goes after the target and the target goes
      where the dragged row was (before its old next sibling, or last). */
  function SwapDropped(s: seq<string>, src: string, dest: string): (r: seq<string>)
    requires Distinct(s) && src in s && dest in s && src != dest
    ensures multiset(r) == multiset(s)
  {
    var srcNext := NextOf(s, IndexOf(s, src));
    var destNext := NextOf(s, IndexOf(s, dest));
    if destNext == Some(src) then InsertedBefore(s, src, Some(dest))
    else
      var s1 := InsertedBefore(s, src, destNext);
      assert dest in multiset(s1) && src in multiset(s1);
      if srcNext == Some(dest) then InsertedBefore(s1, dest, Some(src))
      else
        assert srcNext.Some? ==> srcNext.value in multiset(s1);
        InsertedBefore(s1, dest, srcNext)
  }

  /** A row dropped on the row just above it: one move. */
  lemma DropOnAbove(s: seq<string>, j: nat)
    requires Distinct(s) && j + 1 < |s|
    ensures s[j] != s[j + 1]
    ensures InsertedBefore(s, s[j + 1], Some(s[j])) == Swapped(s, j + 1, j)
  {
    InsertedAbove(s, j + 1, j);
    SwapAdjacent(s, j);
  }

  /** A row dropped on the row just below it: the second move puts the
      target back where the first one left it. */
  lemma DropOnBelow(s: seq<string>, i: nat)
    requires Distinct(s) && i + 1 < |s|
    ensures NextOf(s, i + 1).Some? ==> NextOf(s, i + 1).value != s[i]
    ensures var s1 := InsertedBefore(s, s[i], NextOf(s, i + 1));
      && s[i] in s1 && s[i + 1] in s1 && s[i] != s[i + 1]
      && InsertedBefore(s1, s[i + 1], Some(s[i])) == Swapped(s, i, i + 1)
  {
    InsertedAfter(s, i, i + 1);
    SwapAdjacent(s, i);
    var s1 := InsertedBefore(s, s[i], NextOf(s, i + 1));
    DistinctPermutation(s, s1);
    InsertedInPlace(s1, i);
  }

  /** A row dropped on a row further down. */
  lemma DropDown(s: seq<string>, i: nat, j: nat)
    requires Distinct(s) && i + 1 < j < |s|
    ensures NextOf(s, j).Some? ==> NextOf(s, j).value != s[i]
    ensures var s1 := InsertedBefore(s, s[i], NextOf(s, j));
      && s[j] in s1 && s[i + 1] in s1 && s[j] != s[i + 1]
      && InsertedBefore(s1, s[j], Some(s[i + 1])) == Swapped(s, i, j)
  {
    InsertedAfter(s, i, j);
    DropDownSecond(s, i, j);
  }

  /** The second step of a downward drop, from the list the first step
      leaves. */
  lemma DropDownSecond(s: seq<string>, i: nat, j: nat)
    requires Distinct(s) && i + 1 < j < |s|
    ensures var s1 := Moved(s, i, j);
      && s[j] in s1 && s[i + 1] in s1 && s[j] != s[i + 1]
      && InsertedBefore(s1, s[j], Some(s[i + 1])) == Swapped(s, i, j)
  {
    MovedDownFacts(s, i, j);
    SwapByMovesDown(s, i, j);
    SecondMove(Moved(s, i, j), j - 1, i, Swapped(s, i, j));
  }

  /** The target's move, stated with nothing known about the list but
      what it needs. */
  lemma SecondMove(s1: seq<string>, target: nat, next: nat, swapped: seq<string>)
    requires Distinct(s1) && next < target < |s1|
    requires Moved(s1, target, next) == swapped
    ensures s1[target] in s1 && s1[next] in s1 && s1[target] != s1[next]
    ensures InsertedBefore(s1, s1[target], Some(s1[next])) == swapped
  {
    InsertedAbove(s1, target, next);
  }

  /** After the first step of a downward drop, the target sits just
      above the dragged row and the row below the dragged one has taken
      its place. */
  lemma MovedDownFacts(s: seq<string>, i: nat, j: nat)
    requires Distinct(s) && i + 1 < j < |s|
    ensures Distinct(Moved(s, i, j))
    ensures Moved(s, i, j)[j - 1] == s[j] && Moved(s, i, j)[i] == s[i + 1]
  {
    var s1 := Moved(s, i, j);
    assert multiset(s1) == multiset(InsertedBefore(s, s[i], NextOf(s, j))) == multiset(s) by {
      InsertedAfter(s, i, j);
    }
    DistinctPermutation(s, s1);
    MovedAt(s, i, j);
    assert MovedFrom(i, j, j - 1) == j && MovedFrom(i, j, i) == i + 1;
  }

  /** A row dropped on a row further up, other than the one just above. */
  lemma DropUp(s: seq<string>, i: nat, j: nat)
    requires Distinct(s) && j + 1 < i < |s|
    ensures s[j + 1] != s[i]
    ensures var s1 := InsertedBefore(s, s[i], Some(s[j + 1]));
      && s[j] in s1 && (NextOf(s, i).Some? ==> NextOf(s, i).value in s1 && NextOf(s, i).value != s[j])
      && InsertedBefore(s1, s[j], NextOf(s, i)) == Swapped(s, i, j)
  {
    InsertedAbove(s, i, j + 1);
    MovedUpFacts(s, i, j);
    SwapByMovesUp(s, i, j);
    SecondMoveUp(Moved(s, i, j + 1), j, i, Swapped(s, i, j));
  }

  /** The target's move after an upward drop, stated with nothing known
      about the list but what it needs. */
  lemma SecondMoveUp(s1: seq<string>, target: nat, at: nat, swapped: seq<string>)
    requires Distinct(s1) && target < at < |s1|
    requires Moved(s1, target, at) == swapped
    ensures s1[target] in s1
    ensures NextOf(s1, at).Some? ==> NextOf(s1, at).value in s1 && NextOf(s1, at).value != s1[target]
    ensures InsertedBefore(s1, s1[target], NextOf(s1, at)) == swapped
  {
    InsertedAfter(s1, target, at);
  }

  /** The first step of an upward drop only rearranges the rows. */
  lemma MovedUpDistinct(s: seq<string>, i: nat, j: nat)
    requires Distinct(s) && j + 1 < i < |s|
    ensures Distinct(Moved(s, i, j + 1))
  {
    InsertedAbove(s, i, j + 1);
    DistinctPermutation(s, Moved(s, i, j + 1));
  }

  /** After the first step of an upward drop, the target keeps its place
      and the row below the dragged row's old place is unchanged. */
  lemma MovedUpFacts(s: seq<string>, i: nat, j: nat)
    requires Distinct(s) && j + 1 < i < |s|
    ensures Distinct(Moved(s, i, j + 1))
    ensures Moved(s, i, j + 1)[j] == s[j] && NextOf(Moved(s, i, j + 1), i) == NextOf(s, i)
  {
    MovedUpDistinct(s, i, j);
    MovedAt(s, i, j + 1);
    assert MovedFrom(i, j + 1, j) == j;
    if i + 1 < |s| {
      assert MovedFrom(i, j + 1, i + 1) == i + 1;
    }
  }

  /** The page's steps exchange the two rows. */
  lemma SwapDroppedIsSwap(s: seq<string>, src: string, dest: string)
    requires Distinct(s) && src in s && dest in s && src != dest
    ensures SwapDropped(s, src, dest) == Swapped(s, IndexOf(s, src), IndexOf(s, dest))
  {
    var i, j := IndexOf(s, src), IndexOf(s, dest);
    if NextOf(s, j) == Some(src) {
      assert i == j + 1;
      DropOnAbove(s, j);
    } else if NextOf(s, i) == Some(dest) {
      assert j == i + 1;
      DropOnBelow(s, i);
    } else if i < j {
      DropDown(s, i, j);
    } else {
      DropUp(s, i, j);
    }
  }

  /** A row name that `updateTemplateOrder` keeps (`filter(item =>
      item.dataset.name)`). */
  predicate NonEmpty(name: string) {
    name != []
  }

  /** The order the drag-end reindex reads: each row's name, top to
      bottom, empty names left out. This is the exact name each row was
      rendered from. */
  function RowOrder(rows: seq<Row>): (names: seq<string>)
    ensures forall i :: 0 <= i < |names| ==> names[i] != [] && names[i] in RowNames(rows)
    ensures forall j :: 0 <= j < |rows| && rows[j].name != [] ==> rows[j].name in names
  {
    Filter(RowNames(rows), NonEmpty)
  }

  /** Reordering the rows the page renders keeps every stored template
      with a non-empty name: its record is the stored one with `order` set
      to its place among the rows. */
  lemma RowReorderKeepsTemplates(templates: Fields, k: string)
    requires DistinctKeys(templates)
    requires k != [] && Truthy(Get(templates, k))
    ensures var names := RowOrder(Rows(templates));
      && k in names
      && Get(Reindexed(templates, names), k) == Obj(Put(FieldsOf(Get(templates, k)), "order", Num(IndexOf(names, k))))
  {
    var rows := Rows(templates);
    var names := RowOrder(rows);
    assert k in Keys(templates);
    assert k in multiset(RowNames(rows));
    DistinctPermutation(Keys(templates), RowNames(rows));
    FilterDistinct(RowNames(rows), NonEmpty);
    ReindexedRecord(templates, names, IndexOf(names, k));
  }

  /** What `item.dataset.name` reads back from a row rendered with the
      unescaped attribute `data-name="${name}"`: the attribute's value
      ends at the name's first double quote. */
  function DataName(name: string): (r: string)
    ensures |r| <= |name| && r == name[..|r|]
    ensures '"' !in r
    ensures |r| < |name| ==> name[|r|] == '"'
    ensures r == name <==> '"' !in name
  {
    if name == [] || name[0] == '"' then [] else [name[0]] + DataName(name[1..])
  }

  /** The order `updateTemplateOrder` collects as written: the
      `dataset.name` of each row, empty ones left out. */
  function ReadBackOrder(rows: seq<Row>): (names: seq<string>)
    ensures forall i :: 0 <= i < |names| ==> names[i] != [] && '"' !in names[i]
    ensures forall j :: 0 <= j < |rows| && DataName(rows[j].name) != [] ==> DataName(rows[j].name) in names
  {
    var read := seq(|rows|, j requires 0 <= j < |rows| => DataName(rows[j].name));
    assert forall j :: 0 <= j < |rows| ==> read[j] == DataName(rows[j].name);
    Filter(read, NonEmpty)
  }

  /** The name `say "hi"` reads back as `say `. */
  lemma QuotedDataName()
    ensures DataName("say \"hi\"") == "say "
  {
    var name := "say \"hi\"";
    var r := DataName(name);
    assert name[4] == '"' && '"' in name;
    assert |r| < |name|;
    assert |r| >= 4 by {
      assert name[0] != '"' && name[1] != '"' && name[2] != '"' && name[3] != '"';
    }
    assert r == name[..4];
  }

  /** A single template is rendered as a single row of its name. */
  lemma SingleRow(name: string, rec: Value)
    ensures |Rows([(name, rec)])| == 1 && Rows([(name, rec)])[0].name == name
  {
    var rows := Rows([(name, rec)]);
    assert Keys([(name, rec)]) == [name];
    assert rows[0].name == RowNames(rows)[0];
    assert RowNames(rows)[0] in multiset([name]);
  }

  /** A stored template named `say "hi"` is rendered as a row whose name
      reads back as `say `, which names no template, so the reorder that
      follows a drop writes a `templates` object without it. */
  lemma QuotedNameDroppedByReorder()
    ensures var name := "say \"hi\"";
      var templates := [(name, Obj([("content", Str("hi"))]))];
      && Truthy(Get(templates, name))
      && ReadBackOrder(Rows(templates)) == ["say "]
      && Get(Reindexed(templates, ReadBackOrder(Rows(templates))), name) == Undefined
  {
    var name := "say \"hi\"";
    var rec := Obj([("content", Str("hi"))]);
    SingleRow(name, rec);
    QuotedDataName();
    ReadBackOne(Rows([(name, rec)]));
    ReindexedDrops([(name, rec)], ["say "], name);
  }

  /** A single row whose name reads back non-empty is read back as that. */
  lemma ReadBackOne(rows: seq<Row>)
    requires |rows| == 1 && DataName(rows[0].name) != []
    ensures ReadBackOrder(rows) == [DataName(rows[0].name)]
  {
    var read := seq(|rows|, j requires 0 <= j < |rows| => DataName(rows[j].name));
    assert read == [DataName(rows[0].name)];
    assert Filter(read, NonEmpty) == [read[0]] + Filter([], NonEmpty);
  }

  /** The page, with the background page that answers its requests and
      the list of rows on screen. */
  class TemplatesPage {
    const background: LegacyBackground.Background
    const list: ChildList

    constructor (background: LegacyBackground.Background, list: ChildList)
      ensures this.background == background && this.list == list
    {
      this.background := background;
      this.list := list;
    }

    /** The save button: the form is checked, then `saveTemplate` is sent
        with the trimmed fields. */
    method SaveTemplate(name: string, content: string, now: int) returns (error: Option<string>)
      modifies background.area
      ensures ValidateForm(name, content).Failure? ==>
        error == Some(ValidateForm(name, content).error) && background.area.items == old(background.area.items)
      ensures ValidateForm(name, content).Success? ==>
        && error.None?
        && background.area.items == old(background.area.items)["templates" :=
             Obj(Put(TemplatesIn(old(background.area.items)), Trim(name), LegacyBackground.TemplateRecord(Str(Trim(content)), now)))]
    {
      var form := ValidateForm(name, content);
      if form.Failure? {
        return Some(form.error);
      }
      var _ := background.HandleSaveTemplate(form.value.0, Str(form.value.1), now);
      error := None;
    }

    /** `loadTemplates`: the rows for whatever `getAllTemplates` answers. */
    method LoadTemplates() returns (rows: seq<Row>)
      ensures rows == Rows(FieldsOf(Or(At(background.area.items, "templates"), Obj([]))))
    {
      var stored := background.area.Get("templates");
      rows := Rows(FieldsOf(Or(stored, Obj([]))));
    }

    /** `handleDrop`: the dragged row and the target row trade places and
        the new order is written; a row dropped on itself changes nothing. */
    method HandleDrop(src: string, dest: string)
      requires Distinct(list.nodes) && src in list.nodes && dest in list.nodes
      modifies list, background.area
      ensures src == dest ==> list.nodes == old(list.nodes) && background.area.items == old(background.area.items)
      ensures src != dest ==> list.nodes == SwapDropped(old(list.nodes), src, dest)
      ensures src != dest ==> list.nodes == Swapped(old(list.nodes), IndexOf(old(list.nodes), src), IndexOf(old(list.nodes), dest))
      ensures src != dest ==> background.area.items == old(background.area.items)["templates" :=
        Obj(Reindexed(FieldsOf(Or(At(old(background.area.items), "templates"), Obj([]))), Filter(list.nodes, NonEmpty)))]
    {
      if src == dest {
        return;
      }
      ghost var s := list.nodes;
      SwapDroppedIsSwap(s, src, dest);
      var srcNextSibling := list.NextSibling(src);
      var destNext := list.NextSibling(dest);
      if destNext == Some(src) {
        list.InsertBefore(src, Some(dest));
      } else {
        list.InsertBefore(src, destNext);
        if srcNextSibling == Some(dest) {
          list.InsertBefore(dest, Some(src));
        } else {
          assert srcNextSibling.Some? ==> srcNextSibling.value in multiset(list.nodes);
          list.InsertBefore(dest, srcNextSibling);
        }
      }
      UpdateTemplateOrder();
    }

    /** `updateTemplateOrder`: the rows' non-empty names in screen order,
        reindexed over what `getAllTemplates` answers. Each row carries the
        name it was rendered from; `ReadBackOrder` is the unescaped
        `data-name` reading as written. */
    method UpdateTemplateOrder()
      modifies background.area
      ensures background.area.items == old(background.area.items)["templates" :=
        Obj(Reindexed(FieldsOf(Or(At(old(background.area.items), "templates"), Obj([]))), Filter(list.nodes, NonEmpty)))]
    {
      var newOrder := Filter(list.nodes, NonEmpty);
      var stored := background.area.Get("templates");
      var templates := FieldsOf(Or(stored, Obj([])));
      var newTemplates := Reindex(templates, newOrder);
      background.area.Set("templates", Obj(newTemplates));
    }
  }
}

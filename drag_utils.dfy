/** `src/ui/utils/drag-utils.js`: the viewport clamp of a dragged element
    and its stored offset, and the drag-and-drop reordering of the
    template list. */
module DragUtils {
  import opened Wrappers
  import opened Seqs
  import opened Json
  import opened Dom

  /** The most of an element that must stay inside the viewport. */
  const MinVisible := 20

  /** What `checkBoundaries` reads from the page when it runs: the
      element's size and the viewport's size, in whole pixels. */
  datatype Frame = Frame(width: int, height: int, viewportWidth: int, viewportHeight: int)

  function Min(a: int, b: int): int {
    if a <= b then a else b
  }

  /** The lowest and highest `x` the clamp allows. */
  function LowX(f: Frame): int {
    -f.width + Min(f.width, MinVisible)
  }

  function HighX(f: Frame): int {
    f.viewportWidth - Min(f.width, MinVisible)
  }

  /** The highest `y` the clamp allows; the lowest is 0. */
  function HighY(f: Frame): int {
    f.viewportHeight - Min(f.height, MinVisible)
  }

  /** `checkBoundaries(x, y)`: each coordinate is tested against its lower
      bound first, so a coordinate below it gets the lower bound even when
      the upper bound is lower still. */
  function CheckBoundaries(x: int, y: int, f: Frame): (p: (int, int))
    ensures x < LowX(f) ==> p.0 == LowX(f)
    ensures LowX(f) <= x <= HighX(f) ==> p.0 == x
    ensures LowX(f) <= x && HighX(f) < x ==> p.0 == HighX(f)
    ensures y < 0 ==> p.1 == 0
    ensures 0 <= y <= HighY(f) ==> p.1 == y
    ensures 0 <= y && HighY(f) < y ==> p.1 == HighY(f)
  {
    var clampedX := if x < LowX(f) then LowX(f) else if x > HighX(f) then HighX(f) else x;
    var clampedY := if y < 0 then 0 else if y > HighY(f) then HighY(f) else y;
    (clampedX, clampedY)
  }

  /** When the viewport can hold the required part of the element, the
      clamped point lies inside the allowed box. */
  lemma ClampedInside(x: int, y: int, f: Frame)
    requires LowX(f) <= HighX(f) && 0 <= HighY(f)
    ensures var p := CheckBoundaries(x, y, f);
      LowX(f) <= p.0 <= HighX(f) && 0 <= p.1 <= HighY(f)
  {
  }

  /** Clamping a clamped point changes nothing when the viewport can hold
      the required part of the element. (In a smaller viewport it can: a
      point raised to the lower bound is then above the upper one.) */
  lemma ClampIdempotent(x: int, y: int, f: Frame)
    requires LowX(f) <= HighX(f) && 0 <= HighY(f)
    ensures var p := CheckBoundaries(x, y, f);
      CheckBoundaries(p.0, p.1, f) == p
  {
  }

  /** A point already inside the box is left where it is. */
  lemma ClampKeepsInside(x: int, y: int, f: Frame)
    requires LowX(f) <= x <= HighX(f) && 0 <= y <= HighY(f)
    ensures CheckBoundaries(x, y, f) == (x, y)
  {
  }

  /** The state `makeDraggable` keeps for one element: its current
      offset. */
  class Draggable {
    var xOffset: int
    var yOffset: int

    constructor ()
      ensures xOffset == 0 && yOffset == 0
    {
      xOffset := 0;
      yOffset := 0;
    }

    /** `setTranslate(x, y)`: the element moves to the clamped point, which
        becomes the current offset. */
    method SetTranslate(x: int, y: int, f: Frame)
      modifies this
      ensures (xOffset, yOffset) == CheckBoundaries(x, y, f)
    {
      var p := CheckBoundaries(x, y, f);
      xOffset := p.0;
      yOffset := p.1;
    }

    /** `setPosition(position)`: ignored unless `position` is an object
        whose `x` and `y` are numbers; otherwise the element moves there,
        clamped. */
    method SetPosition(position: Value, f: Frame)
      modifies this
      ensures !(Truthy(position) && Member(position, "x").Num? && Member(position, "y").Num?) ==>
        xOffset == old(xOffset) && yOffset == old(yOffset)
      ensures Truthy(position) && Member(position, "x").Num? && Member(position, "y").Num? ==>
        (xOffset, yOffset) == CheckBoundaries(Member(position, "x").n, Member(position, "y").n, f)
    {
      if Truthy(position) && Member(position, "x").Num? && Member(position, "y").Num? {
        xOffset := Member(position, "x").n;
        yOffset := Member(position, "y").n;
        SetTranslate(Member(position, "x").n, Member(position, "y").n, f);
      }
    }
  }

  /** The state `makeTemplatesSortable` keeps: the list the items live in,
      the items' names as captured when it was set up, and the item being
      dragged. */
  class Sortable {
    const list: ChildList
    const items: seq<string>
    var dragged: Option<string>

    /** The list holds the captured items, in some order, each once. */
    ghost predicate Valid()
      reads this, list
    {
      && Distinct(items)
      && multiset(list.nodes) == multiset(items)
      && (dragged.Some? ==> dragged.value in items && dragged.value in list.nodes)
    }

    constructor (list: ChildList)
      requires Distinct(list.nodes)
      ensures this.list == list && items == list.nodes && dragged.None?
      ensures Valid()
    {
      this.list := list;
      items := list.nodes;
      dragged := None;
    }

    /** `handleDragStart` on an item. */
    method DragStart(item: string)
      requires Valid() && item in items
      modifies this
      ensures dragged == Some(item)
      ensures Valid()
    {
      assert item in multiset(list.nodes);
      dragged := Some(item);
    }

    /** `handleDrop` on `target`: the dragged item takes the target's
        position and the items between shift by one; dropping an item on
        itself changes nothing. With no drag under way the handler throws
        before moving anything. */
    method Drop(target: string)
      requires Valid() && target in list.nodes
      modifies list
      ensures Valid()
      ensures dragged.None? || dragged == Some(target) ==> list.nodes == old(list.nodes)
      ensures dragged.Some? && dragged != Some(target) ==>
        list.nodes == Moved(old(list.nodes), IndexOf(old(list.nodes), dragged.value), IndexOf(old(list.nodes), target))
    {
      if dragged.None? || dragged == Some(target) {
        return;
      }
      var item := dragged.value;
      ghost var s := list.nodes;
      DropSteps(s, items, item, target);
      var draggedIndex := IndexOf(list.nodes, item);
      var droppedIndex := IndexOf(list.nodes, target);
      var reference := if draggedIndex < droppedIndex then list.NextSibling(target) else Some(target);
      list.InsertBefore(item, reference);
    }

    /** `handleDragEnd` as written: the names of the items captured at
        setup, whatever order the list now shows. */
    method DragEnd() returns (newOrder: seq<string>)
      ensures newOrder == items
    {
      newOrder := items;
    }

    /** `handleDragEnd` reporting the names in the list's current order. */
    method DragEndCorrected() returns (newOrder: seq<string>)
      ensures newOrder == list.nodes
    {
      newOrder := list.nodes;
    }
  }

  /** What the two ways of inserting the dragged item do to a list that
      holds the captured items: each is the move to the target's place. */
  lemma DropSteps(s: seq<string>, items: seq<string>, item: string, target: string)
    requires Distinct(items) && multiset(s) == multiset(items)
    requires item in s && target in s && item != target
    ensures var i, j := IndexOf(s, item), IndexOf(s, target);
      && (i < j ==> (NextOf(s, j).Some? ==> NextOf(s, j).value in s && NextOf(s, j).value != item)
                    && InsertedBefore(s, item, NextOf(s, j)) == Moved(s, i, j))
      && (j < i ==> InsertedBefore(s, item, Some(target)) == Moved(s, i, j))
  {
    DistinctPermutation(items, s);
    var i, j := IndexOf(s, item), IndexOf(s, target);
    if i < j {
      InsertedAfter(s, i, j);
    } else {
      InsertedAbove(s, i, j);
    }
  }

  /** A drop keeps the items and their relative order: the dragged item is
      at the target's old position, and taking it out again gives the
      others in their old order. */
  lemma DropKeepsOthers(s: seq<string>, from: nat, to: nat)
    requires from < |s| && to < |s|
    ensures multiset(Moved(s, from, to)) == multiset(s)
    ensures Moved(s, from, to)[to] == s[from]
    ensures RemoveAt(Moved(s, from, to), to) == RemoveAt(s, from)
  {
    var t := RemoveAt(s, from);
    RemoveAtMultiset(s, from);
    InsertAtMultiset(t, to, s[from]);
    RemoveAtSplit(t[..to], s[from], t[to..]);
    assert t[..to] + t[to..] == t;
  }

  /** Any drop onto another item changes the order of a list without
      repeats, so the order reported at drag end by `DragEnd`, which is
      the order at setup, is not the order on screen after the first
      effective drop. */
  lemma DropChangesOrder(s: seq<string>, from: nat, to: nat)
    requires Distinct(s) && from < |s| && to < |s| && from != to
    ensures Moved(s, from, to) != s
  {
    DropKeepsOthers(s, from, to);
    assert Moved(s, from, to)[to] == s[from] != s[to];
  }

  /** Two items, the first dropped on the second: the list shows
      `["b", "a"]` while `DragEnd` still reports `["a", "b"]`. */
  lemma StaleReportExample()
    ensures Moved(["a", "b"], 0, 1) == ["b", "a"]
    ensures Moved(["a", "b"], 0, 1) != ["a", "b"]
  {
    assert RemoveAt(["a", "b"], 0) == ["b"];
  }
}

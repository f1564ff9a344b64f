/** The one piece of the DOM the pages rely on for reordering: a parent's
    list of child elements, each named by its `data-name`, and
    `insertBefore`. */
module Dom {
  import opened Wrappers
  import opened Seqs

  /** `parent.insertBefore(x, ref)` on the list of children: `x` leaves its
      place and comes back just before `ref`, or last when `ref` is `null`. */
  function InsertedBefore(s: seq<string>, x: string, ref: Option<string>): (r: seq<string>)
    requires x in s
    requires ref.Some? ==> ref.value in s && ref.value != x
    ensures multiset(r) == multiset(s)
  {
    var i := IndexOf(s, x);
    var t := RemoveAt(s, i);
    RemoveAtMultiset(s, i);
    if ref.None? then t + [x]
    else
      RemoveAtKeeps(s, i, ref.value);
      var j := IndexOf(t, ref.value);
      InsertAtMultiset(t, j, x);
      InsertAt(t, j, x)
  }

  lemma RemoveAtMultiset(s: seq<string>, i: nat)
    requires i < |s|
    ensures multiset(RemoveAt(s, i)) + multiset{s[i]} == multiset(s)
  {
    assert s == s[..i] + [s[i]] + s[i + 1..];
  }

  lemma InsertAtMultiset(s: seq<string>, i: nat, x: string)
    requires i <= |s|
    ensures multiset(InsertAt(s, i, x)) == multiset(s) + multiset{x}
  {
    assert s == s[..i] + s[i..];
  }

  /** An element other than the one removed is still there. */
  lemma RemoveAtKeeps(s: seq<string>, i: nat, y: string)
    requires i < |s| && y in s && y != s[i]
    ensures y in RemoveAt(s, i)
  {
    var k :| 0 <= k < |s| && s[k] == y;
    if k < i {
      assert RemoveAt(s, i)[k] == y;
    } else {
      assert RemoveAt(s, i)[k - 1] == y;
    }
  }

  /** The sibling after position `i`, `null` for the last child. */
  function NextOf(s: seq<string>, i: nat): (r: Option<string>)
    requires i < |s|
    ensures r.Some? <==> i + 1 < |s|
    ensures r.Some? ==> r.value == s[i + 1]
  {
    if i + 1 < |s| then Some(s[i + 1]) else None
  }

  /** A parent element's children. */
  class ChildList {
    var nodes: seq<string>

    constructor (nodes: seq<string>)
      ensures this.nodes == nodes
    {
      this.nodes := nodes;
    }

    /** `x.nextSibling` */
    function NextSibling(x: string): (r: Option<string>)
      reads this
      requires x in nodes
      ensures r == NextOf(nodes, IndexOf(nodes, x))
    {
      var i := IndexOf(nodes, x);
      if i + 1 < |nodes| then Some(nodes[i + 1]) else None
    }

    /** `parent.insertBefore(x, ref)`; the same children, rearranged. */
    method InsertBefore(x: string, ref: Option<string>)
      requires x in nodes
      requires ref.Some? ==> ref.value in nodes && ref.value != x
      modifies this
      ensures nodes == InsertedBefore(old(nodes), x, ref)
      ensures multiset(nodes) == multiset(old(nodes))
    {
      nodes := InsertedBefore(nodes, x, ref);
    }
  }

  /** The element of a list without repeats is in neither part around it. */
  lemma DistinctAround(s: seq<string>, i: nat)
    requires Distinct(s) && i < |s|
    ensures s == s[..i] + [s[i]] + s[i + 1..]
    ensures s[i] !in s[..i] && s[i] !in s[i + 1..]
  {
    assert s == s[..i] + [s[i]] + s[i + 1..];
    DistinctSplit(s[..i], s[i], s[i + 1..]);
  }

  /** Taking `x` out of `a + [x] + b`, and moving it last. */
  lemma MovedLast(a: seq<string>, x: string, b: seq<string>)
    requires x !in a
    ensures InsertedBefore(a + [x] + b, x, None) == a + b + [x]
  {
    IndexOfSplit(a, x, b);
    assert RemoveAt(a + [x] + b, |a|) == a + b;
  }

  /** Taking `x` out of `a + [x] + b` and putting it back before `y`, where
      what remains is `u + [y] + v`. */
  lemma MovedBefore(a: seq<string>, x: string, b: seq<string>, u: seq<string>, y: string, v: seq<string>)
    requires x !in a && y !in u && y != x
    requires a + b == u + ([y] + v)
    requires y in a || y in b
    ensures InsertedBefore(a + [x] + b, x, Some(y)) == u + [x] + ([y] + v)
  {
    IndexOfSplit(a, x, b);
    RemoveAtSplit(a, x, b);
    assert u + ([y] + v) == u + [y] + v;
    IndexOfSplit(u, y, v);
    InsertAtSplit(u, [y] + v, x);
  }

  lemma RemoveAtSplit(a: seq<string>, x: string, b: seq<string>)
    ensures RemoveAt(a + [x] + b, |a|) == a + b
  {
    assert (a + [x] + b)[..|a|] == a;
    assert (a + [x] + b)[|a| + 1..] == b;
  }

  lemma InsertAtSplit(a: seq<string>, b: seq<string>, x: string)
    ensures InsertAt(a + b, |a|, x) == a + [x] + b
  {
    assert (a + b)[..|a|] == a;
    assert (a + b)[|a|..] == b;
  }

  /** `x` dropped before an earlier `y`, over the parts around them. */
  lemma AboveParts(s: seq<string>, a: seq<string>, y: string, b: seq<string>, x: string, c: seq<string>)
    requires s == a + [y] + b + [x] + c
    requires x !in a + [y] + b && y !in a && x != y
    ensures InsertedBefore(s, x, Some(y)) == Moved(s, |a| + 1 + |b|, |a|)
  {
    AboveInserted(a + [y] + b, a, y, b, x, c);
    AboveMoved(a + [y] + b, a, y, b, x, c);
  }

  lemma AboveInserted(p: seq<string>, a: seq<string>, y: string, b: seq<string>, x: string, c: seq<string>)
    requires p == a + [y] + b
    requires x !in p && y !in a && x != y
    ensures InsertedBefore(p + [x] + c, x, Some(y)) == a + [x] + ([y] + (b + c))
  {
    assert p + c == a + ([y] + (b + c));
    assert y in p by {
      assert p[|a|] == y;
    }
    MovedBefore(p, x, c, a, y, b + c);
  }

  lemma AboveMoved(p: seq<string>, a: seq<string>, y: string, b: seq<string>, x: string, c: seq<string>)
    requires p == a + [y] + b
    ensures Moved(p + [x] + c, |p|, |a|) == a + [x] + ([y] + (b + c))
  {
    assert (p + [x] + c)[|p|] == x;
    RemoveAtSplit(p, x, c);
    assert p + c == a + ([y] + (b + c));
    InsertAtSplit(a, [y] + (b + c), x);
  }

  /** `x` dropped before a later `y`, over the parts around them. */
  lemma AfterParts(s: seq<string>, a: seq<string>, x: string, b: seq<string>, y: string, c: seq<string>)
    requires s == a + [x] + (b + [y] + c) && b != []
    requires x !in a && y !in a + b && x != y
    ensures InsertedBefore(s, x, Some(y)) == Moved(s, |a|, |a| + |b|)
  {
    assert a + (b + [y] + c) == (a + b) + ([y] + c);
    assert y in b + [y] + c by {
      assert (b + [y] + c)[|b|] == y;
    }
    MovedBefore(a, x, b + [y] + c, a + b, y, c);
    RemoveAtSplit(a, x, b + [y] + c);
    InsertAtSplit(a + b, [y] + c, x);
  }

  /** `x` moved last, over the parts around it. */
  lemma LastParts(s: seq<string>, a: seq<string>, x: string, b: seq<string>)
    requires s == a + [x] + b && x !in a
    ensures InsertedBefore(s, x, None) == Moved(s, |a|, |a| + |b|)
  {
    MovedLast(a, x, b);
    RemoveAtSplit(a, x, b);
    InsertAtSplit(a + b, [], x);
  }

  /** Dropping the element at `i` before the one at a lower position `j`
      moves it to `j`. */
  lemma InsertedAbove(s: seq<string>, i: nat, j: nat)
    requires Distinct(s) && j < i < |s|
    ensures s[j] != s[i]
    ensures InsertedBefore(s, s[i], Some(s[j])) == Moved(s, i, j)
  {
    var a, y, b, x, c := s[..j], s[j], s[j + 1..i], s[i], s[i + 1..];
    assert s == a + [y] + b + [x] + c;
    assert x !in a + [y] + b by {
      assert a + [y] + b == s[..i];
    }
    assert |a| == j && |a| + 1 + |b| == i;
    AboveParts(s, a, y, b, x, c);
  }

  /** Dropping the element at `i` before the sibling that follows a higher
      position `j` (or last, when `j` is the last) moves it to `j`. */
  lemma InsertedAfter(s: seq<string>, i: nat, j: nat)
    requires Distinct(s) && i < j < |s|
    ensures NextOf(s, j).Some? ==> NextOf(s, j).value != s[i]
    ensures InsertedBefore(s, s[i], NextOf(s, j)) == Moved(s, i, j)
  {
    var a, x := s[..i], s[i];
    assert x !in a;
    if j + 1 == |s| {
      var b := s[i + 1..];
      assert s == a + [x] + b;
      assert NextOf(s, j) == None && |a| == i && |a| + |b| == j;
      LastParts(s, a, x, b);
    } else {
      var b, y, c := s[i + 1..j + 1], s[j + 1], s[j + 2..];
      assert s == a + [x] + (b + [y] + c);
      assert y != x;
      assert y !in a + b by {
        forall k | 0 <= k < |a + b| ensures (a + b)[k] != y {
          var m := if k < i then k else k + 1;
          assert (a + b)[k] == s[m];
        }
      }
      assert NextOf(s, j) == Some(y) && |a| == i && |a| + |b| == j;
      AfterParts(s, a, x, b, y, c);
    }
  }

  /** Dropping an element before its own next sibling leaves it in place. */
  lemma InsertedInPlace(s: seq<string>, k: nat)
    requires Distinct(s) && k + 1 < |s|
    ensures s[k + 1] != s[k]
    ensures InsertedBefore(s, s[k], Some(s[k + 1])) == s
  {
    DistinctAround(s, k);
    DistinctAround(s, k + 1);
    assert s[k + 1..] == [s[k + 1]] + s[k + 2..];
    MovedBefore(s[..k], s[k], s[k + 1..], s[..k], s[k + 1], s[k + 2..]);
    assert s[..k] + [s[k]] + ([s[k + 1]] + s[k + 2..]) == s;
  }

  /** `Moved` written out for `from < to` and for `to < from`. */
  lemma MovedParts(s: seq<string>, from: nat, to: nat)
    requires from < |s| && to < |s|
    ensures from < to ==> Moved(s, from, to) == s[..from] + s[from + 1..to + 1] + [s[from]] + s[to + 1..]
    ensures to < from ==> Moved(s, from, to) == s[..to] + [s[from]] + s[to..from] + s[from + 1..]
  {
    var t := RemoveAt(s, from);
    if from < to {
      assert t[..to] == s[..from] + s[from + 1..to + 1];
      assert t[to..] == s[to + 1..];
    } else if to < from {
      assert t[..to] == s[..to];
      assert t[to..] == s[to..from] + s[from + 1..];
    }
  }
}

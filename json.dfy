/** JavaScript values as the extension stores them. An object is the
    sequence of its own properties in insertion order, which is the order
    `Object.keys`, `for...in` and spreading observe. */
module Json {
  import opened Seqs
  import opened Text

  datatype Value =
    | Undefined
    | Null
    | Bool(b: bool)
    | Num(n: int)
    | Str(s: string)
    | Obj(fields: seq<(string, Value)>)

  type Fields = seq<(string, Value)>

  /** `!!v` */
  predicate Truthy(v: Value) {
    match v
    case Undefined => false
    case Null => false
    case Bool(b) => b
    case Num(n) => n != 0
    case Str(s) => s != []
    case Obj(_) => true
  }

  /** `a || b` */
  function Or(a: Value, b: Value): (r: Value)
    ensures Truthy(a) ==> r == a
    ensures !Truthy(a) ==> r == b
  {
    if Truthy(a) then a else b
  }

  /** `a ?? b` */
  function Coalesce(a: Value, b: Value): (r: Value)
    ensures a != Undefined && a != Null ==> r == a
    ensures a == Undefined || a == Null ==> r == b
  {
    if a.Undefined? || a.Null? then b else a
  }

  /** `String(v)` for the values the model has. */
  function ToJsString(v: Value): string {
    match v
    case Undefined => "undefined"
    case Null => "null"
    case Bool(b) => if b then "true" else "false"
    case Num(n) => IntToString(n)
    case Str(s) => s
    case Obj(_) => "[object Object]"
  }

  /** The property names of an object, in order. */
  function Keys(fs: Fields): (ks: seq<string>)
    ensures |ks| == |fs|
    ensures forall i :: 0 <= i < |fs| ==> ks[i] == fs[i].0
  {
    if fs == [] then [] else [fs[0].0] + Keys(fs[1..])
  }

  /** JavaScript objects never hold a property name twice. */
  predicate DistinctKeys(fs: Fields) {
    Distinct(Keys(fs))
  }

  /** `o[k]`: the property's value, `undefined` when there is none. */
  function Get(fs: Fields, k: string): (v: Value)
    ensures k !in Keys(fs) ==> v == Undefined
    ensures v != Undefined ==> k in Keys(fs)
  {
    if fs == [] then Undefined
    else if fs[0].0 == k then fs[0].1
    else Get(fs[1..], k)
  }

  /** `o[k]` reads the first property named `k`. */
  lemma {:induction false} GetAt(fs: Fields, i: nat, k: string)
    requires i < |fs| && fs[i].0 == k
    requires forall j :: 0 <= j < i ==> fs[j].0 != k
    ensures Get(fs, k) == fs[i].1
  {
    if i > 0 {
      GetAt(fs[1..], i - 1, k);
    }
  }

  /** The names of two objects' properties laid end to end. */
  lemma {:induction false} KeysAppend(a: Fields, b: Fields)
    ensures Keys(a + b) == Keys(a) + Keys(b)
  {
    if a == [] {
      assert a + b == b;
    } else {
      assert (a + b)[1..] == a[1..] + b;
      KeysAppend(a[1..], b);
    }
  }

  lemma MultisetCancel<T>(x: T, m: multiset<T>, n: multiset<T>)
    requires multiset{x} + m == multiset{x} + n
    ensures m == n
  {
    assert m == (multiset{x} + m) - multiset{x};
  }

  /** Taking one property out of the middle takes its name out. */
  lemma KeysSplit(front: Fields, x: (string, Value), back: Fields)
    ensures multiset(Keys(front + ([x] + back))) == multiset{x.0} + multiset(Keys(front + back))
  {
    KeysAppend(front, [x] + back);
    KeysCons(x, back);
    KeysAppend(front, back);
  }

  /** Removing the first entry on one side and an equal one on the other
      keeps the multisets equal. */
  lemma RemoveMatching(a: Fields, front: Fields, x: (string, Value), back: Fields)
    requires a != [] && a[0] == x
    requires multiset(a) == multiset(front + ([x] + back))
    ensures multiset(a[1..]) == multiset(front + back)
  {
    assert a == [x] + a[1..];
    MultisetCancel(x, multiset(a[1..]), multiset(front + back));
  }

  /** An entry of `a` sits somewhere in any `b` with the same entries. */
  lemma SplitAt(b: Fields, x: (string, Value), a: Fields) returns (front: Fields, back: Fields)
    requires x in a && multiset(a) == multiset(b)
    ensures b == front + ([x] + back)
  {
    assert x in multiset(b);
    var j :| 0 <= j < |b| && b[j] == x;
    front, back := b[..j], b[j + 1..];
    assert b == front + ([x] + back);
  }

  /** Entries with equal multisets have equal multisets of names. */
  lemma {:induction false} KeysMultiset(a: Fields, b: Fields)
    requires multiset(a) == multiset(b)
    ensures multiset(Keys(a)) == multiset(Keys(b))
    decreases |a|
  {
    if a == [] {
      assert b == [] by {
        assert |b| == |multiset(b)|;
      }
    } else {
      var x := a[0];
      var front, back := SplitAt(b, x, a);
      RemoveMatching(a, front, x, back);
      KeysMultiset(a[1..], front + back);
      KeysSplit(front, x, back);
      KeysCons(x, a[1..]);
      assert a == [x] + a[1..];
    }
  }

  /** Each entry of a rearrangement of an object's entries is what the
      object holds under that name. */
  lemma PermutedGet(a: Fields, b: Fields)
    requires DistinctKeys(a) && multiset(b) == multiset(a)
    ensures forall i :: 0 <= i < |b| ==> Get(a, b[i].0) == b[i].1
  {
    forall i | 0 <= i < |b| ensures Get(a, b[i].0) == b[i].1 {
      assert b[i] in multiset(a);
      var k :| 0 <= k < |a| && a[k] == b[i];
      forall m | 0 <= m < k ensures a[m].0 != b[i].0 {
        assert Keys(a)[m] != Keys(a)[k];
      }
      GetAt(a, k, b[i].0);
    }
  }

  /** `n => !!o[n]`: the names with a truthy property. */
  function TruthyAt(fs: Fields): string -> bool {
    n => Truthy(Get(fs, n))
  }

  /** `o[k] = v`: an existing property keeps its place, a new one goes last. */
  function Put(fs: Fields, k: string, v: Value): (r: Fields)
    ensures Get(r, k) == v
    ensures forall k' :: k' != k ==> Get(r, k') == Get(fs, k')
    ensures Keys(r) == if k in Keys(fs) then Keys(fs) else Keys(fs) + [k]
  {
    if fs == [] then [(k, v)]
    else
      KeysCons(fs[0], fs[1..]);
      assert [fs[0]] + fs[1..] == fs;
      if fs[0].0 == k then
        KeysCons((k, v), fs[1..]);
        [(k, v)] + fs[1..]
      else
        var rest := Put(fs[1..], k, v);
        var r := [fs[0]] + rest;
        KeysCons(fs[0], rest);
        assert r[1..] == rest;
        assert k in Keys(fs) <==> k in Keys(fs[1..]);
        r
  }

  /** The names of an object with one more property in front. */
  lemma KeysCons(x: (string, Value), fs: Fields)
    ensures Keys([x] + fs) == [x.0] + Keys(fs)
  {
  }

  /** `delete o[k]`: the other properties keep their order. */
  function Delete(fs: Fields, k: string): (r: Fields)
    ensures Get(r, k) == Undefined
    ensures forall k' :: k' != k ==> Get(r, k') == Get(fs, k')
    ensures Keys(r) == Without(Keys(fs), k)
  {
    if fs == [] then []
    else
      assert Keys(fs) == [fs[0].0] + Keys(fs[1..]);
      if fs[0].0 == k then Delete(fs[1..], k)
      else
        var r := [fs[0]] + Delete(fs[1..], k);
        assert Keys(r) == [fs[0].0] + Keys(Delete(fs[1..], k));
        r
  }

  lemma PutDistinct(fs: Fields, k: string, v: Value)
    requires DistinctKeys(fs)
    ensures DistinctKeys(Put(fs, k, v))
  {
  }

  /** `v[k]` on a stored value: an object's property, `undefined` otherwise. */
  function Member(v: Value, k: string): (r: Value)
    ensures v.Obj? ==> r == Get(v.fields, k)
    ensures !v.Obj? ==> r == Undefined
  {
    if v.Obj? then Get(v.fields, k) else Undefined
  }

  /** `v || {}` used as an object: the properties of `v` when it is one, none otherwise. */
  function FieldsOf(v: Value): (fs: Fields)
    ensures v.Obj? ==> fs == v.fields
    ensures !v.Obj? ==> fs == []
  {
    if v.Obj? then v.fields else []
  }

  /** The text of a stored string field: its string, or "" for anything else. */
  function TextOf(v: Value): (s: string)
    ensures v.Str? ==> s == v.s
    ensures !v.Str? ==> s == []
  {
    if v.Str? then v.s else []
  }
}

/** Sets listed in order, as the ordered containers and the store's iterator list them. */
module Ordering {

  ghost predicate StrictOrder<T(!new)>(less: (T, T) -> bool) {
    && (forall a :: !less(a, a))
    && (forall a, b, c :: less(a, b) && less(b, c) ==> less(a, c))
    && (forall a, b :: a != b ==> less(a, b) || less(b, a))
  }

  ghost predicate Ascending<T>(less: (T, T) -> bool, s: seq<T>) {
    forall i, j :: 0 <= i < j < |s| ==> less(s[i], s[j])
  }

  function Insert<T>(less: (T, T) -> bool, x: T, s: seq<T>): seq<T> {
    if s == [] || less(x, s[0]) then [x] + s else [s[0]] + Insert(less, x, s[1..])
  }

  lemma {:induction false} InsertAscends<T(!new)>(less: (T, T) -> bool, x: T, s: seq<T>)
    requires StrictOrder(less) && Ascending(less, s) && x !in s
    ensures Ascending(less, Insert(less, x, s)) && |Insert(less, x, s)| == |s| + 1
    ensures forall y :: y in Insert(less, x, s) <==> y == x || y in s
  {
    if s != [] && !less(x, s[0]) {
      InsertAscends(less, x, s[1..]);
      var r := Insert(less, x, s[1..]);
      forall i | 0 <= i < |r|
        ensures less(s[0], r[i])
      {
        assert r[i] in r;
      }
    }
  }

  /** An ascending sequence is determined by its elements. */
  lemma {:induction false} AscendingUnique<T(!new)>(less: (T, T) -> bool, a: seq<T>, b: seq<T>)
    requires StrictOrder(less) && Ascending(less, a) && Ascending(less, b)
    requires forall x :: x in a <==> x in b
    ensures a == b
    decreases |a|
  {
    assert |b| > 0 ==> b[0] in b;
    if a != [] {
      assert a[0] in b;
      HeadsAgree(less, a, b);
      forall x
        ensures x in a[1..] <==> x in b[1..]
      {
        assert x in a <==> x == a[0] || x in a[1..];
        assert x in b <==> x == b[0] || x in b[1..];
      }
      AscendingUnique(less, a[1..], b[1..]);
      assert a == [a[0]] + a[1..] && b == [b[0]] + b[1..];
    }
  }

  lemma HeadsAgree<T(!new)>(less: (T, T) -> bool, a: seq<T>, b: seq<T>)
    requires StrictOrder(less) && Ascending(less, a) && Ascending(less, b)
    requires a != [] && b != [] && a[0] in b && b[0] in a
    ensures a[0] == b[0]
    ensures a[0] !in a[1..] && b[0] !in b[1..]
  {
    var a0, b0 := a[0], b[0];
    var i :| 0 <= i < |b| && b[i] == a[0];
    var j :| 0 <= j < |a| && a[j] == b[0];
    assert i > 0 ==> less(b0, a0);
    assert j > 0 ==> less(a0, b0);
  }

  /** The elements of a set in ascending order. */
  ghost function InOrder<T(!new)>(less: (T, T) -> bool, keys: set<T>): (s: seq<T>)
    requires StrictOrder(less)
    ensures Ascending(less, s) && |s| == |keys|
    ensures forall x :: x in s <==> x in keys
  {
    if keys == {} then []
    else
      var k :| k in keys;
      InsertAscends(less, k, InOrder(less, keys - {k}));
      Insert(less, k, InOrder(less, keys - {k}))
  }

  method Sort<T(!new, ==)>(less: (T, T) -> bool, keys: set<T>) returns (s: seq<T>)
    requires StrictOrder(less)
    ensures s == InOrder(less, keys)
  {
    var rest := keys;
    s := [];
    while rest != {}
      invariant rest <= keys
      invariant Ascending(less, s) && forall x :: x in s <==> x in keys - rest
      decreases rest
    {
      var k :| k in rest;
      InsertAscends(less, k, s);
      s, rest := Insert(less, k, s), rest - {k};
    }
    AscendingUnique(less, s, InOrder(less, keys));
  }
}

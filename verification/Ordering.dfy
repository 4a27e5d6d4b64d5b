/** Sorting into the canonical lock order. */
module Ordering {
  ghost predicate StrictOrder<T(!new)>(less: (T, T) -> bool) {
    && (forall x, y, z :: less(x, y) && less(y, z) ==> less(x, z))
    && (forall x, y :: x == y || less(x, y) || less(y, x))
    && (forall x, y :: less(x, y) ==> !less(y, x))
  }

  /** Ascending without repetition. */
  ghost predicate Ascending<T>(less: (T, T) -> bool, s: seq<T>) {
    forall i, j :: 0 <= i < j < |s| ==> less(s[i], s[j])
  }

  function InsertAscending<T(==,!new)>(less: (T, T) -> bool, s: seq<T>, x: T): (r: seq<T>)
    ensures forall y :: y in r <==> y in s || y == x
  {
    if s == [] then [x]
    else if s[0] == x then s
    else if less(x, s[0]) then [x] + s
    else [s[0]] + InsertAscending(less, s[1..], x)
  }

  lemma {:induction false} InsertKeepsAscending<T(!new)>(less: (T, T) -> bool, s: seq<T>, x: T)
    requires StrictOrder(less) && Ascending(less, s)
    ensures Ascending(less, InsertAscending(less, s, x))
  {
    if s != [] && s[0] != x && !less(x, s[0]) {
      InsertKeepsAscending(less, s[1..], x);
      var tail := InsertAscending(less, s[1..], x);
      forall j | 0 <= j < |tail| ensures less(s[0], tail[j]) {
        assert tail[j] in tail;
      }
    }
  }

  /** Sort and drop repetitions. */
  method SortedDeduped<T(==,!new)>(less: (T, T) -> bool, items: seq<T>) returns (r: seq<T>)
    requires StrictOrder(less)
    ensures Ascending(less, r)
    ensures forall x :: x in r <==> x in items
  {
    hide StrictOrder;
    r := [];
    for k := 0 to |items|
      invariant Ascending(less, r)
      invariant forall x :: x in r <==> x in items[..k]
    {
      InsertKeepsAscending(less, r, items[k]);
      r := InsertAscending(less, r, items[k]);
      assert items[..k + 1] == items[..k] + [items[k]];
    }
    assert items[..|items|] == items;
  }

  /** An ascending list is determined by its elements. */
  lemma {:induction false} AscendingUnique<T(!new)>(less: (T, T) -> bool, a: seq<T>, b: seq<T>)
    requires StrictOrder(less) && Ascending(less, a) && Ascending(less, b)
    requires forall x :: x in a <==> x in b
    ensures a == b
  {
    assert a != [] ==> a[0] in a;
    assert b != [] ==> b[0] in b;
    if a != [] {
      assert a[0] == b[0] by {
        var i :| 0 <= i < |b| && b[i] == a[0];
        var j :| 0 <= j < |a| && a[j] == b[0];
      }
      forall x ensures x in a[1..] <==> x in b[1..] {
        assert x in a[1..] <==> x in a && x != a[0];
        assert x in b[1..] <==> x in b && x != b[0];
      }
      AscendingUnique(less, a[1..], b[1..]);
    }
  }
}

/** Sorting by a strict total order. Sequences without repetitions have one sorted form. */
module Sorting {
  ghost predicate StrictOrder<T(!new)>(less: (T, T) -> bool) {
    && (forall a :: !less(a, a))
    && (forall a, b :: less(a, b) || a == b || less(b, a))
    && (forall a, b, c :: less(a, b) && less(b, c) ==> less(a, c))
  }

  ghost predicate Distinct<T(!new)>(s: seq<T>) {
    forall i, j :: 0 <= i < j < |s| ==> s[i] != s[j]
  }

  ghost predicate Ascending<T(!new)>(s: seq<T>, less: (T, T) -> bool) {
    forall i, j :: 0 <= i < j < |s| ==> less(s[i], s[j])
  }

  function Insert<T>(s: seq<T>, x: T, less: (T, T) -> bool): seq<T> {
    if s == [] || !less(x, s[|s| - 1]) then s + [x] else Insert(s[..|s| - 1], x, less) + [s[|s| - 1]]
  }

  function Sort<T>(s: seq<T>, less: (T, T) -> bool): seq<T> {
    if s == [] then [] else Insert(Sort(s[..|s| - 1], less), s[|s| - 1], less)
  }

  lemma {:induction false} InsertAscends<T(!new)>(s: seq<T>, x: T, less: (T, T) -> bool)
    requires StrictOrder(less) && Ascending(s, less) && x !in s
    ensures Ascending(Insert(s, x, less), less) && forall y :: y in Insert(s, x, less) <==> y == x || y in s
  {
    if s != [] {
      var front, last := s[..|s| - 1], s[|s| - 1];
      assert s == front + [last];
      if less(x, last) {
        InsertAscends(front, x, less);
        var r := Insert(front, x, less);
        forall i | 0 <= i < |r| ensures less(r[i], last) {
          assert r[i] in r;
        }
      } else {
        assert less(last, x);
      }
    }
  }

  lemma {:induction false} SortAscends<T(!new)>(s: seq<T>, less: (T, T) -> bool)
    requires StrictOrder(less) && Distinct(s)
    ensures Ascending(Sort(s, less), less) && forall y :: y in Sort(s, less) <==> y in s
  {
    if s != [] {
      var front, last := s[..|s| - 1], s[|s| - 1];
      assert s == front + [last];
      SortAscends(front, less);
      InsertAscends(Sort(front, less), last, less);
    }
  }

  lemma NoMembers<T(!new)>(a: seq<T>)
    ensures a == [] <==> forall s :: s !in a
  {
    assert a != [] ==> a[0] in a;
  }

  lemma AscendingFront<T(!new)>(a: seq<T>, less: (T, T) -> bool)
    requires StrictOrder(less) && Ascending(a, less) && a != []
    ensures forall s :: s in a[..|a| - 1] <==> s in a && s != a[|a| - 1]
  {
    assert a == a[..|a| - 1] + [a[|a| - 1]];
  }

  lemma SameGreatest<T(!new)>(a: seq<T>, b: seq<T>, less: (T, T) -> bool)
    requires StrictOrder(less) && Ascending(a, less) && Ascending(b, less)
    requires a != [] && b != [] && forall s :: s in a <==> s in b
    ensures a[|a| - 1] == b[|b| - 1]
  {
    var x, y := a[|a| - 1], b[|b| - 1];
    assert x in a && y in b;
    var i :| 0 <= i < |b| && b[i] == x;
    var j :| 0 <= j < |a| && a[j] == y;
  }

  /** A set of elements has one ascending listing. */
  lemma {:induction false} AscendingUnique<T(!new)>(a: seq<T>, b: seq<T>, less: (T, T) -> bool)
    requires StrictOrder(less) && Ascending(a, less) && Ascending(b, less) && forall s :: s in a <==> s in b
    ensures a == b
    decreases |a|
  {
    hide StrictOrder;
    NoMembers(a);
    NoMembers(b);
    if a != [] {
      SameGreatest(a, b, less);
      AscendingFront(a, less);
      AscendingFront(b, less);
      var a', b' := a[..|a| - 1], b[..|b| - 1];
      assert forall s :: s in a' <==> s in a && s != a[|a| - 1];
      assert forall s :: s in b' <==> s in b && s != b[|b| - 1];
      AscendingUnique(a', b', less);
    }
  }

  lemma AscendingDistinct<T(!new)>(a: seq<T>, less: (T, T) -> bool)
    requires StrictOrder(less) && Ascending(a, less)
    ensures Distinct(a)
  {
  }
}

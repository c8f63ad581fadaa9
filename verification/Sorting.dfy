/** The stable descending sort that the tools apply to teams and to matchups. The library routine itself is not
    part of the repository: StableSort is one way to compute its result, and StableSortIsUnique says that there is
    no other result. */
module Sorting {

  ghost predicate Descending<T>(xs: seq<T>, key: T -> real) {
    forall m, n :: 0 <= m < n < |xs| ==> key(xs[m]) >= key(xs[n])
  }

  function WithKey<T>(xs: seq<T>, v: real, key: T -> real): seq<T> {
    if xs == [] then []
    else
      var n := |xs| - 1;
      WithKey(xs[..n], v, key) + (if key(xs[n]) == v then [xs[n]] else [])
  }

  /** Descending by key, and the elements of every single key are the same ones in the same order. */
  ghost predicate IsStableSort<T>(input: seq<T>, out: seq<T>, key: T -> real) {
    Descending(out, key) && forall v: real :: WithKey(out, v, key) == WithKey(input, v, key)
  }

  function Insert<T>(sorted: seq<T>, x: T, key: T -> real): seq<T> {
    if sorted == [] || key(sorted[|sorted| - 1]) >= key(x) then sorted + [x]
    else Insert(sorted[..|sorted| - 1], x, key) + [sorted[|sorted| - 1]]
  }

  /** What sort.SliceStable computes under "larger key first". */
  function StableSort<T>(xs: seq<T>, key: T -> real): seq<T> {
    if xs == [] then [] else Insert(StableSort(xs[..|xs| - 1], key), xs[|xs| - 1], key)
  }

  lemma WithKeyAppend<T>(xs: seq<T>, x: T, v: real, key: T -> real)
    ensures WithKey(xs + [x], v, key) == WithKey(xs, v, key) + (if key(x) == v then [x] else [])
  {
    assert (xs + [x])[..|xs|] == xs;
  }

  lemma {:induction false} WithKeySubset<T>(xs: seq<T>, v: real, key: T -> real)
    ensures forall x <- WithKey(xs, v, key) :: x in xs && key(x) == v
  {
    if xs != [] { WithKeySubset(xs[..|xs| - 1], v, key); }
  }

  lemma {:induction false} InWithKey<T>(xs: seq<T>, x: T, key: T -> real)
    requires x in xs
    ensures x in WithKey(xs, key(x), key)
  {
    if x != xs[|xs| - 1] { InWithKey(xs[..|xs| - 1], x, key); }
  }

  lemma {:induction false} InsertKeepsOrder<T>(sorted: seq<T>, x: T, key: T -> real)
    requires Descending(sorted, key)
    ensures Descending(Insert(sorted, x, key), key)
    ensures forall y <- Insert(sorted, x, key) :: y in sorted || y == x
  {
    if sorted == [] || key(sorted[|sorted| - 1]) >= key(x) {
    } else {
      var rest, last := sorted[..|sorted| - 1], sorted[|sorted| - 1];
      InsertKeepsOrder(rest, x, key);
      assert forall y <- Insert(rest, x, key) :: key(y) >= key(last);
    }
  }

  lemma {:induction false} InsertByKey<T>(sorted: seq<T>, x: T, v: real, key: T -> real)
    ensures WithKey(Insert(sorted, x, key), v, key) == WithKey(sorted + [x], v, key)
  {
    if sorted != [] && key(sorted[|sorted| - 1]) < key(x) {
      var rest, last := sorted[..|sorted| - 1], sorted[|sorted| - 1];
      InsertByKey(rest, x, v, key);
      assert sorted == rest + [last];
      PassBy(rest, Insert(rest, x, key), x, last, v, key);
    }
  }

  lemma PassBy<T>(rest: seq<T>, merged: seq<T>, x: T, last: T, v: real, key: T -> real)
    requires WithKey(merged, v, key) == WithKey(rest + [x], v, key) && key(last) < key(x)
    ensures WithKey(merged + [last], v, key) == WithKey(rest + [last] + [x], v, key)
  {
    WithKeyAppend(merged, last, v, key);
    WithKeyAppend(rest, x, v, key);
    WithKeyAppend(rest + [last], x, v, key);
    WithKeyAppend(rest, last, v, key);
  }

  lemma {:induction false} StableSortIsStable<T>(xs: seq<T>, key: T -> real)
    ensures IsStableSort(xs, StableSort(xs, key), key)
  {
    if xs != [] {
      var n := |xs| - 1;
      var rest := StableSort(xs[..n], key);
      StableSortIsStable(xs[..n], key);
      InsertKeepsOrder(rest, xs[n], key);
      forall v: real ensures WithKey(StableSort(xs, key), v, key) == WithKey(xs, v, key) {
        InsertByKey(rest, xs[n], v, key);
        WithKeyAppend(rest, xs[n], v, key);
      }
    }
  }

  /** There is only one stable descending order. */
  lemma {:induction false} StableSortIsUnique<T>(a: seq<T>, b: seq<T>, key: T -> real)
    requires Descending(a, key) && Descending(b, key) && forall v: real :: WithKey(a, v, key) == WithKey(b, v, key)
    ensures a == b
  {
    if a != [] { LowestScore(a, b, key); }
    if b != [] { LowestScore(b, a, key); }
    if a != [] {
      var m, n := |a| - 1, |b| - 1;
      var v := key(a[m]);
      assert WithKey(a, v, key)[|WithKey(a, v, key)| - 1] == a[m] &&
             WithKey(b, v, key)[|WithKey(b, v, key)| - 1] == b[n];
      forall w: real ensures WithKey(a[..m], w, key) == WithKey(b[..n], w, key) {
        DropLast(a, b, w, key);
      }
      StableSortIsUnique(a[..m], b[..n], key);
      assert a == a[..m] + [a[m]] && b == b[..n] + [b[n]];
    }
  }

  lemma LowestScore<T>(a: seq<T>, b: seq<T>, key: T -> real)
    requires a != [] && Descending(b, key) && WithKey(a, key(a[|a| - 1]), key) == WithKey(b, key(a[|a| - 1]), key)
    ensures b != [] && key(b[|b| - 1]) <= key(a[|a| - 1])
  {
    InWithKey(a, a[|a| - 1], key);
    WithKeySubset(b, key(a[|a| - 1]), key);
    assert a[|a| - 1] in b;
  }

  lemma DropLast<T>(a: seq<T>, b: seq<T>, w: real, key: T -> real)
    requires a != [] && b != [] && a[|a| - 1] == b[|b| - 1] && WithKey(a, w, key) == WithKey(b, w, key)
    ensures WithKey(a[..|a| - 1], w, key) == WithKey(b[..|b| - 1], w, key)
  {
    var tail := if key(a[|a| - 1]) == w then [a[|a| - 1]] else [];
    SameTail(WithKey(a[..|a| - 1], w, key), WithKey(b[..|b| - 1], w, key), tail);
  }

  lemma SameTail<T>(x: seq<T>, y: seq<T>, tail: seq<T>)
    requires x + tail == y + tail
    ensures x == y
  {
    assert |x| == |y|;
    assert (x + tail)[..|x|] == x && (y + tail)[..|x|] == y;
  }

  /** Sorting neither adds nor loses an element. */
  lemma SortedMember<T>(xs: seq<T>, key: T -> real, x: T)
    ensures x in StableSort(xs, key) <==> x in xs
  {
    StableSortIsStable(xs, key);
    if x in xs {
      InWithKey(xs, x, key);
      WithKeySubset(StableSort(xs, key), key(x), key);
    }
    if x in StableSort(xs, key) {
      InWithKey(StableSort(xs, key), x, key);
      WithKeySubset(xs, key(x), key);
    }
  }

  lemma DescendingAppend<T>(xs: seq<T>, key: T -> real, x: T)
    requires Descending(xs, key) && forall y <- xs :: key(y) >= key(x)
    ensures Descending(xs + [x], key)
  {
  }
}

/** Facts about sequences that several modules share. */
module Sequences {

  ghost predicate Distinct<T>(xs: seq<T>) {
    forall i, j :: 0 <= i < j < |xs| ==> xs[i] != xs[j]
  }

  /** `out` lists the elements of `input` in the order given by `perm`. */
  ghost predicate Reorders<T>(out: seq<T>, input: seq<T>, perm: seq<nat>) {
    && |perm| == |out| == |input| && Distinct(perm)
    && (forall i :: 0 <= i < |perm| ==> perm[i] < |input|)
    && (forall i :: 0 <= i < |perm| ==> out[i] == input[perm[i]])
  }

  function Elements<T>(xs: seq<T>): set<T> {
    set x | x in xs
  }

  lemma {:induction false} DistinctCardinality<T>(xs: seq<T>)
    requires Distinct(xs)
    ensures |Elements(xs)| == |xs|
  {
    if xs != [] {
      var n := |xs| - 1;
      DistinctCardinality(xs[..n]);
      assert Elements(xs) == Elements(xs[..n]) + {xs[n]};
      assert xs[n] !in xs[..n];
    }
  }

  function Below(n: nat): (r: set<nat>)
    ensures |r| == n && forall i: nat :: i in r <==> i < n
  {
    if n == 0 then {} else Below(n - 1) + {n - 1}
  }

  lemma SubsetSize<T>(a: set<T>, b: set<T>)
    requires a <= b
    ensures |a| <= |b|
  {
    assert b == a + (b - a);
  }

  lemma SubsetOfSameSize<T>(a: set<T>, b: set<T>)
    requires a <= b && |a| == |b|
    ensures a == b
  {
    assert b == a + (b - a);
  }

  /** A reordering loses nothing: every position of the input is used. */
  lemma ReorderCovers<T>(out: seq<T>, input: seq<T>, perm: seq<nat>, k: nat) returns (i: nat)
    requires Reorders(out, input, perm) && k < |input|
    ensures i < |out| && perm[i] == k && out[i] == input[k]
  {
    DistinctCardinality(perm);
    SubsetOfSameSize(Elements(perm), Below(|input|));
    assert k in Elements(perm);
    i :| 0 <= i < |perm| && perm[i] == k;
  }

  // ---------------------------------------------------------------- lexicographic order on strings

  /** Byte-wise comparison, as `<` on Go strings. */
  predicate StringLess(a: string, b: string) {
    if b == [] then false
    else if a == [] then true
    else a[0] < b[0] || (a[0] == b[0] && StringLess(a[1..], b[1..]))
  }

  /** The strings agree on the first `k` characters, and then `a` ends or continues with the smaller one. */
  ghost predicate SmallerAt(a: string, b: string, k: nat) {
    k <= |a| && k < |b| && a[..k] == b[..k] && (k == |a| || a[k] < b[k])
  }

  /** At the first position where they differ the smaller character decides; a proper prefix is smaller. */
  lemma {:induction false} StringLessIsLexicographic(a: string, b: string)
    ensures StringLess(a, b) <==> exists k: nat :: SmallerAt(a, b, k)
  {
    if a != [] && b != [] && a[0] == b[0] {
      StringLessIsLexicographic(a[1..], b[1..]);
      SmallerInTail(a, b);
    } else if b != [] {
      assert a[..0] == b[..0];
      assert StringLess(a, b) ==> SmallerAt(a, b, 0);
    }
  }

  lemma SmallerInTail(a: string, b: string)
    requires a != [] && b != [] && a[0] == b[0]
    ensures (exists k: nat :: SmallerAt(a, b, k)) <==> exists k: nat :: SmallerAt(a[1..], b[1..], k)
  {
    if k: nat :| SmallerAt(a, b, k) {
      assert k > 0 && a[1..][..k - 1] == a[..k][1..] && b[1..][..k - 1] == b[..k][1..];
      assert SmallerAt(a[1..], b[1..], k - 1);
    }
    if k: nat :| SmallerAt(a[1..], b[1..], k) {
      assert a[..k + 1] == [a[0]] + a[1..][..k] && b[..k + 1] == [b[0]] + b[1..][..k];
      assert SmallerAt(a, b, k + 1);
    }
  }

  lemma {:induction false} StringLessTotal(a: string, b: string)
    ensures StringLess(a, b) || a == b || StringLess(b, a)
    ensures !(StringLess(a, b) && StringLess(b, a)) && (a == b ==> !StringLess(a, b))
  {
    if a != [] && b != [] && a[0] == b[0] {
      StringLessTotal(a[1..], b[1..]);
      if a[1..] == b[1..] { assert a == [a[0]] + a[1..] && b == [b[0]] + b[1..]; }
    }
  }
}

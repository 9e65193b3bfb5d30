/** The list operations the merges are written with: `filter(x -> !ys.contains(x))`
  * and `distinct()` of Java streams, both order-preserving. */
module Sequences {

  /** Elements of `xs` not in `ys`, in order (duplicates of `xs` kept). */
  function NotIn<T(==)>(xs: seq<T>, ys: seq<T>): (r: seq<T>)
    ensures |r| <= |xs|
    ensures forall i :: 0 <= i < |r| ==> r[i] in xs && r[i] !in ys
    ensures forall i :: 0 <= i < |xs| && xs[i] !in ys ==> xs[i] in r
  {
    if xs == [] then []
    else if xs[0] in ys then NotIn(xs[1..], ys)
    else [xs[0]] + NotIn(xs[1..], ys)
  }

  predicate NoDuplicates<T(==)>(xs: seq<T>)
  {
    forall i, j :: 0 <= i < j < |xs| ==> xs[i] != xs[j]
  }

  /** `Stream.distinct()`: the first occurrence of every element, in order. */
  function Distinct<T(==)>(xs: seq<T>): (r: seq<T>)
    ensures NoDuplicates(r)
    ensures forall i :: 0 <= i < |r| ==> r[i] in xs
    ensures forall i :: 0 <= i < |xs| ==> xs[i] in r
    ensures |r| <= |xs|
  {
    if xs == [] then []
    else
      var d := Distinct(xs[..|xs| - 1]);
      assert forall i :: 0 <= i < |xs| - 1 ==> xs[i] == xs[..|xs| - 1][i];
      if xs[|xs| - 1] in d then d else d + [xs[|xs| - 1]]
  }

  /** A duplicate-free list is its own `distinct()`. */
  lemma {:induction false} DistinctOfNoDuplicates<T>(xs: seq<T>)
    requires NoDuplicates(xs)
    ensures Distinct(xs) == xs
  {
    if xs != [] {
      var init := xs[..|xs| - 1];
      DistinctOfNoDuplicates(init);
      assert xs[|xs| - 1] !in init;
      assert init + [xs[|xs| - 1]] == xs;
    }
  }

  lemma NotInNoDuplicates<T>(xs: seq<T>, ys: seq<T>)
    requires NoDuplicates(xs)
    ensures NoDuplicates(NotIn(xs, ys))
  {
    if xs != [] {
      NotInNoDuplicates(xs[1..], ys);
      assert xs[0] !in xs[1..];
    }
  }

  /** Concatenating two duplicate-free lists with nothing in common stays
    * duplicate-free. */
  lemma ConcatNoDuplicates<T>(xs: seq<T>, ys: seq<T>)
    requires NoDuplicates(xs) && NoDuplicates(ys)
    requires forall x :: x in xs ==> x !in ys
    ensures NoDuplicates(xs + ys)
  {
    var s := xs + ys;
    forall i, j | 0 <= i < j < |s| ensures s[i] != s[j] {
      if j < |xs| {
      } else if i >= |xs| {
        assert s[i] == ys[i - |xs|] && s[j] == ys[j - |xs|];
      } else {
        assert s[i] in xs && s[j] == ys[j - |xs|];
      }
    }
  }
}

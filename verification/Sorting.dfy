/** `std::sort`: some permutation that the comparator calls sorted. Nothing is said
    about the order of elements the comparator cannot tell apart. */
module Sorting {

  /** Names a triple, so that transitivity is used only where it is asked for. */
  ghost predicate Triple<T>(x: T, y: T, z: T) { true }

  /** The comparator requirement of `std::sort`. */
  ghost predicate StrictWeakOrder<T(!new)>(less: (T, T) -> bool) {
    && (forall x, y :: less(x, y) ==> !less(y, x))
    && (forall x, y, z {:trigger Triple(x, y, z)} :: !less(y, x) && !less(z, y) ==> !less(z, x))
  }

  ghost predicate SortedBy<T>(less: (T, T) -> bool, xs: seq<T>) {
    forall i, j {:trigger less(xs[j], xs[i])} :: 0 <= i < j < |xs| ==> !less(xs[j], xs[i])
  }

  /** The comparator tells any two different elements of `xs` apart. */
  ghost predicate Separates<T(!new)>(less: (T, T) -> bool, xs: seq<T>) {
    forall x, y {:trigger less(x, y)} :: x in xs && y in xs && x != y ==> less(x, y) || less(y, x)
  }

  ghost predicate Distinct<T>(xs: seq<T>) {
    forall i, j :: 0 <= i < j < |xs| ==> xs[i] != xs[j]
  }

  ghost predicate Permutation<T>(xs: seq<T>, ys: seq<T>) {
    multiset(xs) == multiset(ys)
  }

  method Sort<T(!new,==)>(less: (T, T) -> bool, xs: seq<T>) returns (r: seq<T>)
    requires StrictWeakOrder(less)
    ensures SortedBy(less, r) && Permutation(r, xs)
  {
    r := [];
    for i := 0 to |xs|
      invariant SortedBy(less, r) && Permutation(r, xs[..i])
    {
      r := Insert(less, r, xs[i]);
      assert xs[..i + 1] == xs[..i] + [xs[i]];
    }
    assert xs[..|xs|] == xs;
  }

  method Insert<T(!new,==)>(less: (T, T) -> bool, xs: seq<T>, x: T) returns (r: seq<T>)
    requires StrictWeakOrder(less) && SortedBy(less, xs)
    ensures SortedBy(less, r) && multiset(r) == multiset(xs) + multiset{x}
  {
    var k := |xs|;
    while k > 0 && less(x, xs[k - 1])
      invariant 0 <= k <= |xs|
      invariant forall i :: k <= i < |xs| ==> less(x, xs[i])
    {
      k := k - 1;
    }
    r := xs[..k] + [x] + xs[k..];
    InsertSorted(less, xs, x, k);
    assert xs == xs[..k] + xs[k..];
  }

  lemma InsertSorted<T(!new)>(less: (T, T) -> bool, xs: seq<T>, x: T, k: nat)
    requires StrictWeakOrder(less) && SortedBy(less, xs) && k <= |xs|
    requires k > 0 ==> !less(x, xs[k - 1])
    requires forall i :: k <= i < |xs| ==> less(x, xs[i])
    ensures SortedBy(less, xs[..k] + [x] + xs[k..])
  {
    var r := xs[..k] + [x] + xs[k..];
    forall i, j | 0 <= i < j < |r|
      ensures !less(r[j], r[i])
    {
      if i < k - 1 && j == k {
        assert Triple(xs[i], xs[k - 1], x);
      }
    }
  }

  lemma PermutationMembers<T>(xs: seq<T>, ys: seq<T>)
    requires Permutation(xs, ys)
    ensures forall x :: x in xs <==> x in ys
    ensures |xs| == |ys|
  {
    assert forall x :: x in xs <==> x in multiset(xs);
    assert |multiset(xs)| == |xs| && |multiset(ys)| == |ys|;
  }

  lemma {:induction false} DistinctCounts<T>(xs: seq<T>, x: T)
    requires Distinct(xs)
    ensures multiset(xs)[x] == if x in xs then 1 else 0
  {
    if xs != [] {
      var n := |xs| - 1;
      assert xs == xs[..n] + [xs[n]];
      DistinctCounts(xs[..n], x);
    }
  }

  lemma RepeatCounts<T>(xs: seq<T>, i: nat, j: nat)
    requires i < j < |xs| && xs[i] == xs[j]
    ensures multiset(xs)[xs[i]] >= 2
  {
    assert xs == xs[..j] + xs[j..];
    assert xs[..j][i] in multiset(xs[..j]) && xs[j..][0] in multiset(xs[j..]);
  }

  lemma PermutationDistinct<T>(xs: seq<T>, ys: seq<T>)
    requires Permutation(xs, ys) && Distinct(ys)
    ensures Distinct(xs)
  {
    forall i, j | 0 <= i < j < |xs|
      ensures xs[i] != xs[j]
    {
      DistinctCounts(ys, xs[i]);
      if xs[i] == xs[j] { RepeatCounts(xs, i, j); }
    }
  }

  lemma SameMembersPermutation<T>(xs: seq<T>, ys: seq<T>)
    requires Distinct(xs) && Distinct(ys)
    requires forall x :: x in xs <==> x in ys
    ensures Permutation(xs, ys)
  {
    forall x ensures multiset(xs)[x] == multiset(ys)[x] {
      DistinctCounts(xs, x);
      DistinctCounts(ys, x);
    }
  }

  /** In two sorted permutations of a separated list, the greatest elements agree. */
  lemma GreatestAgree<T(!new)>(less: (T, T) -> bool, xs: seq<T>, ys: seq<T>)
    requires SortedBy(less, xs) && SortedBy(less, ys) && Permutation(xs, ys)
    requires Separates(less, xs) && xs != [] && ys != []
    ensures xs[|xs| - 1] == ys[|ys| - 1]
  {
    PermutationMembers(xs, ys);
    var x, y := xs[|xs| - 1], ys[|ys| - 1];
    assert y in xs && x in ys;
    var i :| 0 <= i < |xs| && xs[i] == y;
    var j :| 0 <= j < |ys| && ys[j] == x;
    assert x != y ==> !less(x, y) && !less(y, x);
  }

  lemma DropLast<T(!new)>(less: (T, T) -> bool, xs: seq<T>)
    requires SortedBy(less, xs) && Separates(less, xs) && xs != []
    ensures SortedBy(less, xs[..|xs| - 1]) && Separates(less, xs[..|xs| - 1])
    ensures multiset(xs[..|xs| - 1]) == multiset(xs) - multiset{xs[|xs| - 1]}
  {
    var ys := xs[..|xs| - 1];
    assert xs == ys + [xs[|xs| - 1]];
    assert forall x :: x in ys ==> x in xs;
  }

  /** A comparator that separates the elements leaves `std::sort` no choice. */
  lemma {:induction false} SortIsUnique<T(!new)>(less: (T, T) -> bool, xs: seq<T>, ys: seq<T>)
    requires SortedBy(less, xs) && SortedBy(less, ys) && Permutation(xs, ys)
    requires Separates(less, xs)
    ensures xs == ys
  {
    PermutationMembers(xs, ys);
    if xs != [] {
      GreatestAgree(less, xs, ys);
      SeparatesPermutation(less, xs, ys);
      DropLast(less, xs);
      DropLast(less, ys);
      var n := |xs| - 1;
      SortIsUnique(less, xs[..n], ys[..n]);
      assert xs == xs[..n] + [xs[n]] && ys == ys[..n] + [xs[n]];
    }
  }

  lemma SeparatesPermutation<T(!new)>(less: (T, T) -> bool, xs: seq<T>, ys: seq<T>)
    requires Permutation(xs, ys) && Separates(less, xs)
    ensures Separates(less, ys)
  {
    PermutationMembers(xs, ys);
  }

  lemma SortedAppend<T>(less: (T, T) -> bool, xs: seq<T>, x: T)
    requires SortedBy(less, xs) && forall i :: 0 <= i < |xs| ==> !less(x, xs[i])
    ensures SortedBy(less, xs + [x])
  {
    forall i, j | 0 <= i < j < |xs + [x]| ensures !less((xs + [x])[j], (xs + [x])[i]) {
      if j < |xs| { assert !less(xs[j], xs[i]); }
    }
  }
}

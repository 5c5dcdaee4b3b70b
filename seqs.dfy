/** Sequence helpers shared by the model: Python's list slicing and list(set(...)). */
module Seqs {

  /** No element occurs twice. */
  predicate Distinct<T(==)>(s: seq<T>)
  {
    forall i, j :: 0 <= i < j < |s| ==> s[i] != s[j]
  }

  /** `all` is a duplicate-free listing of exactly the elements of `xs`, in some order:
      what `list(set(xs))` returns, whose order Python leaves unspecified. */
  predicate IsDedupOf<T(==)>(all: seq<T>, xs: seq<T>)
  {
    && Distinct(all)
    && (forall x <- all :: x in xs)
    && (forall x <- xs :: x in all)
  }

  /** One duplicate-free listing of `xs` (first occurrences, in order); it witnesses that
      `IsDedupOf` can always be met. */
  function Dedup<T(==)>(xs: seq<T>): (all: seq<T>)
    ensures IsDedupOf(all, xs)
  {
    if xs == [] then []
    else
      var rest := Dedup(xs[..|xs| - 1]);
      assert xs == xs[..|xs| - 1] + [xs[|xs| - 1]];
      if xs[|xs| - 1] in rest then rest else rest + [xs[|xs| - 1]]
  }

  function Min(a: int, b: int): int { if a <= b then a else b }

  function Max(a: int, b: int): int { if a >= b then a else b }

  /** Python's `s[:n]`: the first n elements, where a negative n drops |n| elements from the end. */
  function SliceTo<T>(s: seq<T>, n: int): (r: seq<T>)
    ensures |r| <= |s| && r == s[..|r|]
    ensures n >= 0 ==> |r| == Min(n, |s|)
    ensures n < 0 ==> |r| == Max(0, |s| + n)
  {
    if n >= 0 then s[..Min(n, |s|)] else s[..Max(0, |s| + n)]
  }

  /** The sum of `f` over `xs`, added up from the front as a loop would. */
  function Total<T>(xs: seq<T>, f: T -> nat): nat
  {
    if xs == [] then 0 else Total(xs[..|xs| - 1], f) + f(xs[|xs| - 1])
  }

  /** A sum of naturals is positive exactly when one of its terms is. */
  lemma {:induction false} TotalPositiveIff<T>(xs: seq<T>, f: T -> nat)
    ensures Total(xs, f) > 0 <==> exists i :: 0 <= i < |xs| && f(xs[i]) > 0
  {
    if xs != [] {
      var n := |xs| - 1;
      var init := xs[..n];
      TotalPositiveIff(init, f);
      if Total(xs, f) > 0 && f(xs[n]) == 0 {
        var i :| 0 <= i < |init| && f(init[i]) > 0;
        assert xs[i] == init[i];
      }
      if exists i :: 0 <= i < |xs| && f(xs[i]) > 0 {
        var i :| 0 <= i < |xs| && f(xs[i]) > 0;
        if i < n {
          assert init[i] == xs[i];
        }
      }
    }
  }

  lemma {:induction false} TotalAppend<T>(a: seq<T>, b: seq<T>, f: T -> nat)
    ensures Total(a + b, f) == Total(a, f) + Total(b, f)
  {
    if b == [] {
      assert a + b == a;
    } else {
      TotalAppend(a, b[..|b| - 1], f);
      assert (a + b)[..|a + b| - 1] == a + b[..|b| - 1];
    }
  }

  /** The sum does not depend on the order of the terms. */
  lemma {:induction false} TotalPermutation<T>(a: seq<T>, b: seq<T>, f: T -> nat)
    requires multiset(a) == multiset(b)
    ensures Total(a, f) == Total(b, f)
    decreases |a|
  {
    if a != [] {
      var x := a[|a| - 1];
      var init := a[..|a| - 1];
      assert x in multiset(b);
      var j :| 0 <= j < |b| && b[j] == x;
      var rest := b[..j] + b[j + 1..];
      assert a == init + [x];
      assert b == b[..j] + [x] + b[j + 1..];
      assert multiset(rest) == multiset(b) - multiset{x};
      assert multiset(init) == multiset(a) - multiset{x};
      TotalPermutation(init, rest, f);
      TotalAppend(b[..j] + [x], b[j + 1..], f);
      TotalAppend(b[..j], [x], f);
      TotalAppend(b[..j], b[j + 1..], f);
      assert Total([x], f) == f(x) by {
        assert [x][..0] == [];
      }
    }
  }

  lemma TotalPair<T>(a: T, b: T, f: T -> nat)
    ensures Total([a, b], f) == f(a) + f(b)
  {
    assert [a, b][..1] == [a] && [a][..0] == [];
    assert Total([a], f) == f(a);
  }
}

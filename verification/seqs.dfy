/** Sequence helpers shared by the tracker model: filtering in order, summing a
    per-element weight, duplicate-freedom and first-seen duplicate removal. */
module Seqs {

  /** The elements of `s` that satisfy `p`, in their original order
      (the behaviour of `Array.prototype.filter`). */
  function Filter<T(!new)>(s: seq<T>, p: T -> bool): (r: seq<T>)
    ensures |r| <= |s|
    ensures forall x :: x in r <==> x in s && p(x)
    ensures (forall i :: 0 <= i < |s| ==> p(s[i])) ==> r == s
  {
    if |s| == 0 then []
    else
      var init := Filter(s[..|s| - 1], p);
      assert s == s[..|s| - 1] + [s[|s| - 1]];
      if p(s[|s| - 1]) then init + [s[|s| - 1]] else init
  }

  /** Filtering distributes over concatenation: it keeps the relative order of
      the elements it keeps. */
  lemma {:induction false} FilterConcat<T(!new)>(a: seq<T>, b: seq<T>, p: T -> bool)
    ensures Filter(a + b, p) == Filter(a, p) + Filter(b, p)
    decreases |b|
  {
    if |b| == 0 {
      assert a + b == a;
    } else {
      var b' := b[..|b| - 1];
      assert (a + b)[..|a + b| - 1] == a + b';
      assert (a + b)[|a + b| - 1] == b[|b| - 1];
      FilterConcat(a, b', p);
    }
  }

  /** The sum of `f` over the elements of `s` (a left fold, as `reduce`). */
  function Sum<T>(s: seq<T>, f: T -> int): int
  {
    if |s| == 0 then 0 else Sum(s[..|s| - 1], f) + f(s[|s| - 1])
  }

  lemma {:induction false} SumConcat<T>(a: seq<T>, b: seq<T>, f: T -> int)
    ensures Sum(a + b, f) == Sum(a, f) + Sum(b, f)
    decreases |b|
  {
    if |b| == 0 {
      assert a + b == a;
    } else {
      var b' := b[..|b| - 1];
      assert (a + b)[..|a + b| - 1] == a + b';
      assert (a + b)[|a + b| - 1] == b[|b| - 1];
      SumConcat(a, b', f);
    }
  }

  lemma SumSingleton<T>(x: T, f: T -> int)
    ensures Sum([x], f) == f(x)
  {
    assert [x][..0] == [];
  }

  /** Taking out the element at `j` leaves the others, counted as before. */
  lemma RemoveAt<T>(b: seq<T>, j: int)
    requires 0 <= j < |b|
    ensures multiset(b[..j] + b[j + 1..]) == multiset(b) - multiset{b[j]}
  {
    assert b == b[..j] + [b[j]] + b[j + 1..];
  }

  lemma {:induction false} SumRemoveAt<T>(b: seq<T>, j: int, f: T -> int)
    requires 0 <= j < |b|
    ensures Sum(b, f) == Sum(b[..j] + b[j + 1..], f) + f(b[j])
    decreases |b|
  {
    var n := |b| - 1;
    var b' := b[..j] + b[j + 1..];
    if j == n {
      assert b' == b[..n];
    } else {
      var c := b[..n];
      SumRemoveAt(c, j, f);
      assert b'[..|b'| - 1] == c[..j] + c[j + 1..];
      assert b'[|b'| - 1] == b[n];
    }
  }

  lemma RemoveLast<T>(a: seq<T>)
    requires |a| > 0
    ensures a[|a| - 1] in multiset(a)
    ensures multiset(a[..|a| - 1]) == multiset(a) - multiset{a[|a| - 1]}
  {
    assert a == a[..|a| - 1] + [a[|a| - 1]];
  }

  /** A sum does not depend on the order of the elements summed. */
  lemma {:induction false} SumPermutation<T>(a: seq<T>, b: seq<T>, f: T -> int)
    requires multiset(a) == multiset(b)
    ensures Sum(a, f) == Sum(b, f)
    decreases |a|
  {
    if |a| == 0 {
      assert |b| == |multiset(b)| == 0;
    } else {
      var n := |a| - 1;
      RemoveLast(a);
      var j :| 0 <= j < |b| && b[j] == a[n];
      RemoveAt(b, j);
      SumPermutation(a[..n], b[..j] + b[j + 1..], f);
      SumRemoveAt(b, j, f);
    }
  }

  /** Replacing one element changes the sum by the difference of weights. */
  lemma {:induction false} SumUpdate<T>(s: seq<T>, i: int, x: T, f: T -> int)
    requires 0 <= i < |s|
    ensures Sum(s[i := x], f) == Sum(s, f) - f(s[i]) + f(x)
    decreases |s|
  {
    var s' := s[i := x];
    assert s'[..|s| - 1] == if i < |s| - 1 then s[..|s| - 1][i := x] else s[..|s| - 1];
    if i < |s| - 1 {
      SumUpdate(s[..|s| - 1], i, x, f);
    }
  }

  /** A sum is monotone in the weight. */
  lemma {:induction false} SumMonotone<T>(s: seq<T>, f: T -> int, g: T -> int)
    requires forall i :: 0 <= i < |s| ==> f(s[i]) <= g(s[i])
    ensures Sum(s, f) <= Sum(s, g)
    decreases |s|
  {
    if |s| > 0 {
      SumMonotone(s[..|s| - 1], f, g);
    }
  }

  /** Two weights that agree on every element give the same sum. */
  lemma {:induction false} SumAgree<T>(s: seq<T>, f: T -> int, g: T -> int)
    requires forall i :: 0 <= i < |s| ==> f(s[i]) == g(s[i])
    ensures Sum(s, f) == Sum(s, g)
    decreases |s|
  {
    if |s| > 0 {
      SumAgree(s[..|s| - 1], f, g);
    }
  }

  /** A sum of weights that vanish on every element is zero. */
  lemma {:induction false} SumZero<T>(s: seq<T>, f: T -> int)
    requires forall i :: 0 <= i < |s| ==> f(s[i]) == 0
    ensures Sum(s, f) == 0
    decreases |s|
  {
    if |s| > 0 {
      SumZero(s[..|s| - 1], f);
    }
  }

  /** A sum of nonnegative weights is nonnegative. */
  lemma {:induction false} SumNonnegative<T>(s: seq<T>, f: T -> int)
    requires forall i :: 0 <= i < |s| ==> f(s[i]) >= 0
    ensures Sum(s, f) >= 0
    decreases |s|
  {
    if |s| > 0 {
      SumNonnegative(s[..|s| - 1], f);
    }
  }

  /** No element occurs twice. */
  predicate Distinct<T(==)>(s: seq<T>)
  {
    forall i, j :: 0 <= i < j < |s| ==> s[i] != s[j]
  }

  lemma DistinctAppend<T>(s: seq<T>, x: T)
    requires Distinct(s) && x !in s
    ensures Distinct(s + [x])
  {
    var r := s + [x];
    forall i, j | 0 <= i < j < |r| ensures r[i] != r[j] {
      if j == |s| {
        assert r[i] == s[i];
      }
    }
  }

  /** The elements of `s` with later repetitions dropped, in order of first
      occurrence (the iteration order of a JavaScript `Set` built from `s`). */
  function Dedup<T(==,!new)>(s: seq<T>): (r: seq<T>)
    ensures Distinct(r)
    ensures forall x :: x in r <==> x in s
    ensures |r| <= |s|
  {
    if |s| == 0 then []
    else
      var d := Dedup(s[..|s| - 1]);
      var x := s[|s| - 1];
      assert s == s[..|s| - 1] + [x];
      if x in d then d else d + [x]
  }

  lemma {:induction false} DistinctCount<T>(s: seq<T>, x: T)
    requires Distinct(s)
    ensures multiset(s)[x] <= 1
    decreases |s|
  {
    if |s| > 0 {
      var s' := s[..|s| - 1];
      assert s == s' + [s[|s| - 1]];
      DistinctCount(s', x);
      if x == s[|s| - 1] {
        assert x !in s';
      }
    }
  }

  lemma RepeatCount<T>(s: seq<T>, i: int, j: int)
    requires 0 <= i < j < |s| && s[i] == s[j]
    ensures multiset(s)[s[i]] >= 2
  {
    assert s == s[..j] + [s[j]] + s[j + 1..];
    assert s[i] in s[..j];
  }

  /** A reordering of a duplicate-free sequence is duplicate-free. */
  lemma DistinctPermutation<T>(a: seq<T>, b: seq<T>)
    requires multiset(a) == multiset(b)
    requires Distinct(a)
    ensures Distinct(b)
  {
    forall i, j | 0 <= i < j < |b|
      ensures b[i] != b[j]
    {
      if b[i] == b[j] {
        RepeatCount(b, i, j);
        DistinctCount(a, b[i]);
      }
    }
  }
}

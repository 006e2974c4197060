/** A stable sort by an integer key. JavaScript's `Array.prototype.sort` is
    stable, and both of the tracker's sorts compare by a number: the date's
    timestamp (ascending) and a category total (descending, i.e. ascending in
    its negation). Stability is stated as "for every key, the elements carrying
    that key keep their relative order". */
module StableSort {

  /** Non-decreasing in `key`. */
  predicate SortedBy<T>(s: seq<T>, key: T -> int)
  {
    forall i, j :: 0 <= i < j < |s| ==> key(s[i]) <= key(s[j])
  }

  /** `[y]` if `y` has key `k`, else nothing. */
  function Tag<T>(y: T, key: T -> int, k: int): seq<T>
  {
    if key(y) == k then [y] else []
  }

  /** The elements of `s` whose key is `k`, in their order in `s`. */
  function WithKey<T>(s: seq<T>, key: T -> int, k: int): seq<T>
  {
    if |s| == 0 then []
    else Tag(s[0], key, k) + WithKey(s[1..], key, k)
  }

  /** Places `x` before the first element whose key is not smaller than its
      own; `x` therefore precedes every element of `s` that has the same key. */
  function Insert<T>(x: T, s: seq<T>, key: T -> int): (r: seq<T>)
    ensures |r| == |s| + 1
  {
    if |s| == 0 then [x]
    else if key(x) <= key(s[0]) then [x] + s
    else [s[0]] + Insert(x, s[1..], key)
  }

  lemma {:induction false} InsertPermutes<T>(x: T, s: seq<T>, key: T -> int)
    ensures multiset(Insert(x, s, key)) == multiset(s) + multiset{x}
    decreases |s|
  {
    if |s| > 0 && key(s[0]) < key(x) {
      InsertPermutes(x, s[1..], key);
      assert s == [s[0]] + s[1..];
    }
  }

  /** A lower bound on the keys of `s` and of `x` bounds the keys after the
      insertion. */
  lemma {:induction false} InsertLowerBound<T>(x: T, s: seq<T>, key: T -> int, b: int)
    requires b <= key(x)
    requires forall i :: 0 <= i < |s| ==> b <= key(s[i])
    ensures forall i :: 0 <= i < |Insert(x, s, key)| ==> b <= key(Insert(x, s, key)[i])
    decreases |s|
  {
    if |s| > 0 && key(s[0]) < key(x) {
      InsertLowerBound(x, s[1..], key, b);
      var rest := Insert(x, s[1..], key);
      assert Insert(x, s, key) == [s[0]] + rest;
    }
  }

  lemma {:induction false} InsertSorted<T>(x: T, s: seq<T>, key: T -> int)
    requires SortedBy(s, key)
    ensures SortedBy(Insert(x, s, key), key)
    decreases |s|
  {
    if |s| > 0 && key(s[0]) < key(x) {
      var rest := Insert(x, s[1..], key);
      InsertSorted(x, s[1..], key);
      InsertLowerBound(x, s[1..], key, key(s[0]));
      var r := Insert(x, s, key);
      assert r == [s[0]] + rest;
      forall i, j | 0 <= i < j < |r| ensures key(r[i]) <= key(r[j]) {
        assert r[j] == rest[j - 1];
        if i > 0 {
          assert r[i] == rest[i - 1];
        }
      }
    }
  }

  lemma WithKeyCons<T>(y: T, t: seq<T>, key: T -> int, k: int)
    ensures WithKey([y] + t, key, k) == Tag(y, key, k) + WithKey(t, key, k)
  {
    assert ([y] + t)[1..] == t;
  }

  lemma SwapFront<T>(a: seq<T>, b: seq<T>, c: seq<T>)
    requires a == [] || b == []
    ensures a + (b + c) == b + (a + c)
  {
    if a == [] {
      assert a + (b + c) == b + c && a + c == c;
    } else {
      assert b + (a + c) == a + c && b + c == c;
    }
  }

  /** Inserting `x` adds it in front of the elements with the same key. */
  lemma {:induction false} InsertWithKey<T>(x: T, s: seq<T>, key: T -> int, k: int)
    ensures WithKey(Insert(x, s, key), key, k) == Tag(x, key, k) + WithKey(s, key, k)
    decreases |s|
  {
    if |s| == 0 || key(x) <= key(s[0]) {
      WithKeyCons(x, s, key, k);
    } else {
      var rest := Insert(x, s[1..], key);
      assert Insert(x, s, key) == [s[0]] + rest;
      WithKeyCons(s[0], rest, key, k);
      InsertWithKey(x, s[1..], key, k);
      // x and s[0] cannot both carry key k, so their order does not matter.
      SwapFront(Tag(s[0], key, k), Tag(x, key, k), WithKey(s[1..], key, k));
    }
  }

  /** Stable insertion sort of `s` by ascending `key`. */
  function SortBy<T>(s: seq<T>, key: T -> int): (r: seq<T>)
    ensures |r| == |s|
    ensures multiset(r) == multiset(s)
    ensures SortedBy(r, key)
    ensures forall k :: WithKey(r, key, k) == WithKey(s, key, k)
  {
    if |s| == 0 then []
    else
      var rest := SortBy(s[1..], key);
      assert s == [s[0]] + s[1..];
      InsertSorted(s[0], rest, key);
      InsertPermutes(s[0], rest, key);
      forall k ensures WithKey(Insert(s[0], rest, key), key, k) == WithKey(s, key, k) {
        InsertWithKey(s[0], rest, key, k);
      }
      Insert(s[0], rest, key)
  }

  /** Sorting only reorders: membership is unchanged. */
  lemma SortByMembers<T>(s: seq<T>, key: T -> int)
    ensures forall x :: x in SortBy(s, key) <==> x in s
  {
    var r := SortBy(s, key);
    forall x ensures x in r <==> x in s {
      assert x in r <==> x in multiset(r);
      assert x in s <==> x in multiset(s);
    }
  }
}

/** Failure-carrying values shared by every module: Python's `None`, and a result
    that is either a value or the exception the Python code would raise. */
module Common {

  datatype Option<+T> = None | Some(value: T) {
    function GetOr(default: T): T {
      match this
      case Some(v) => v
      case None => default
    }
  }

  /** The exception classes the modelled code raises or lets escape. `Unmodelled`
      marks an input whose Python behaviour the model does not reproduce. */
  datatype PyError =
    | ValidationError
    | ExternalApiError
    | AttributeError
    | TypeError
    | ValueError
    | KeyError
    | Unmodelled

  datatype Result<+T> = Ok(value: T) | Err(error: PyError) {
    predicate IsFailure() {
      Err?
    }

    function PropagateFailure<U>(): Result<U>
      requires Err?
    {
      Err(error)
    }

    function Extract(): T
      requires Ok?
    {
      value
    }
  }
}

/** Sequence helpers standing for Python list comprehensions and slices. */
module Seqs {

  /** `[x for x in s if p(x)]` */
  function Filter<T>(s: seq<T>, p: T -> bool): (r: seq<T>)
    ensures |r| <= |s|
    ensures forall i :: 0 <= i < |r| ==> p(r[i])
  {
    if s == [] then [] else (if p(s[0]) then [s[0]] else []) + Filter(s[1..], p)
  }

  /** Exactly the elements of `s` that pass `p` are kept. */
  lemma {:induction false} FilterMembership<T>(s: seq<T>, p: T -> bool, x: T)
    ensures x in Filter(s, p) <==> x in s && p(x)
  {
    if s != [] {
      FilterMembership(s[1..], p, x);
      assert s == [s[0]] + s[1..];
    }
  }

  lemma {:induction false} FilterConcat<T>(a: seq<T>, b: seq<T>, p: T -> bool)
    ensures Filter(a + b, p) == Filter(a, p) + Filter(b, p)
  {
    if a == [] {
      assert a + b == b;
    } else {
      assert (a + b)[1..] == a[1..] + b;
      FilterConcat(a[1..], b, p);
    }
  }

  lemma FilterSingle<T>(x: T, p: T -> bool)
    ensures Filter([x], p) == if p(x) then [x] else []
  {
    assert [x][1..] == [];
  }

  /** Appending one element extends the filtered list by that element when it passes. */
  lemma FilterSnoc<T>(s: seq<T>, x: T, p: T -> bool)
    ensures Filter(s + [x], p) == Filter(s, p) + (if p(x) then [x] else [])
  {
    FilterConcat(s, [x], p);
  }

  /** Predicates that agree on the elements of `s` keep the same elements. */
  lemma {:induction false} FilterCongruent<T>(s: seq<T>, p: T -> bool, q: T -> bool)
    requires forall i :: 0 <= i < |s| ==> p(s[i]) == q(s[i])
    ensures Filter(s, p) == Filter(s, q)
  {
    if s != [] {
      FilterCongruent(s[1..], p, q);
    }
  }

  /** When every element passes, nothing is dropped. */
  lemma {:induction false} FilterAll<T>(s: seq<T>, p: T -> bool)
    requires forall x :: x in s ==> p(x)
    ensures Filter(s, p) == s
  {
    if s != [] {
      FilterAll(s[1..], p);
    }
  }

  /** A weaker predicate keeps at least as many elements. */
  lemma {:induction false} FilterCountMono<T>(s: seq<T>, p: T -> bool, q: T -> bool)
    requires forall x :: p(x) ==> q(x)
    ensures |Filter(s, p)| <= |Filter(s, q)|
  {
    if s != [] {
      FilterCountMono(s[1..], p, q);
    }
  }

  /** How many elements pass depends only on the multiset of the list. */
  lemma {:induction false} FilterCountPermutation<T>(a: seq<T>, b: seq<T>, p: T -> bool)
    requires multiset(a) == multiset(b)
    ensures |Filter(a, p)| == |Filter(b, p)|
    decreases |a|
  {
    if a == [] {
      assert |b| == |multiset(b)| == 0;
    } else {
      var x := a[0];
      assert x in multiset(b);
      var j :| 0 <= j < |b| && b[j] == x;
      var b1, b2 := b[..j], b[j + 1..];
      assert b == b1 + [x] + b2;
      assert a == [x] + a[1..];
      assert multiset(a[1..]) == multiset(b1 + b2) by {
        assert multiset(b) == multiset(b1) + multiset([x]) + multiset(b2);
        assert multiset(b1 + b2) == multiset(b1) + multiset(b2);
        assert multiset(a) == multiset([x]) + multiset(a[1..]);
        assert multiset(b1 + b2) == multiset(b) - multiset([x]);
        assert multiset(a[1..]) == multiset(a) - multiset([x]);
      }
      FilterCountPermutation(a[1..], b1 + b2, p);
      assert |Filter(b, p)| == |Filter(b1 + b2, p)| + |Filter([x], p)| by {
        FilterConcat(b1 + [x], b2, p);
        FilterConcat(b1, [x], p);
        FilterConcat(b1, b2, p);
      }
      FilterConcat([x], a[1..], p);
    }
  }

  /** `a` is obtained from `b` by deleting elements, keeping the order of the rest. */
  predicate IsSubsequence<T(==)>(a: seq<T>, b: seq<T>)
    decreases |b|
  {
    if a == [] then true
    else if b == [] then false
    else (a[0] == b[0] && IsSubsequence(a[1..], b[1..])) || IsSubsequence(a, b[1..])
  }

  lemma {:induction false} SubsequenceRefl<T>(s: seq<T>)
    ensures IsSubsequence(s, s)
  {
    if s != [] {
      SubsequenceRefl(s[1..]);
    }
  }

  lemma {:induction false} FilterIsSubsequence<T>(s: seq<T>, p: T -> bool)
    ensures IsSubsequence(Filter(s, p), s)
  {
    if s != [] {
      FilterIsSubsequence(s[1..], p);
      if p(s[0]) {
        assert Filter(s, p) == [s[0]] + Filter(s[1..], p);
      } else if Filter(s, p) != [] {
        assert Filter(s, p) == Filter(s[1..], p);
      }
    }
  }

  /** Leaving out an element the filter rejects makes the result strictly shorter. */
  lemma {:induction false} FilterShorter<T>(s: seq<T>, p: T -> bool, k: int)
    requires 0 <= k < |s| && !p(s[k])
    ensures |Filter(s, p)| < |s|
  {
    if k == 0 {
      assert Filter(s, p) == Filter(s[1..], p);
    } else {
      FilterShorter(s[1..], p, k - 1);
      assert Filter(s, p) == (if p(s[0]) then [s[0]] else []) + Filter(s[1..], p);
    }
  }

  /** `s[:k]` for an integer k, negative values counting from the end. */
  function SliceTo<T>(s: seq<T>, k: int): (r: seq<T>)
    ensures k >= 0 ==> r == s[..if k < |s| then k else |s|]
    ensures k < 0 ==> r == s[..if |s| + k > 0 then |s| + k else 0]
  {
    if k >= 0 then s[..if k < |s| then k else |s|] else s[..if |s| + k > 0 then |s| + k else 0]
  }
}

/** The stable sort behind Python's `list.sort(key=..., reverse=...)`, as an
    insertion sort over sequences. */
module Sorting {
  import opened Seqs

  /** `a` may stand before `b` in the sorted order. */
  predicate Before(a: real, b: real, descending: bool) {
    if descending then a >= b else a <= b
  }

  ghost predicate SortedBy<T>(s: seq<T>, key: T -> real, descending: bool) {
    forall i, j :: 0 <= i < j < |s| ==> Before(key(s[i]), key(s[j]), descending)
  }

  /** Puts `x` before the first element it may precede: earlier input stays earlier among equal keys. */
  function Insert<T>(x: T, s: seq<T>, key: T -> real, descending: bool): (r: seq<T>)
    ensures |r| == |s| + 1
    ensures multiset(r) == multiset(s) + multiset{x}
  {
    if s == [] || Before(key(x), key(s[0]), descending) then [x] + s
    else
      assert s == [s[0]] + s[1..];
      [s[0]] + Insert(x, s[1..], key, descending)
  }

  lemma {:induction false} InsertSorted<T>(x: T, s: seq<T>, key: T -> real, descending: bool)
    requires SortedBy(s, key, descending)
    ensures SortedBy(Insert(x, s, key, descending), key, descending)
  {
    if s != [] && !Before(key(x), key(s[0]), descending) {
      var rest := Insert(x, s[1..], key, descending);
      InsertSorted(x, s[1..], key, descending);
      var r := [s[0]] + rest;
      assert r == Insert(x, s, key, descending);
      forall j | 0 < j < |r|
        ensures Before(key(s[0]), key(r[j]), descending)
      {
        assert r[j] == rest[j - 1];
        assert rest[j - 1] in multiset(rest);
        if rest[j - 1] != x {
          assert rest[j - 1] in multiset(s[1..]);
          var k :| 0 <= k < |s[1..]| && s[1..][k] == rest[j - 1];
          assert s[k + 1] == r[j];
        }
      }
    }
  }

  /** `sorted(s, key=key, reverse=descending)`: a sorted permutation of `s`. */
  function SortBy<T>(s: seq<T>, key: T -> real, descending: bool): (r: seq<T>)
    ensures |r| == |s|
    ensures multiset(r) == multiset(s)
  {
    if s == [] then []
    else
      assert s == [s[0]] + s[1..];
      Insert(s[0], SortBy(s[1..], key, descending), key, descending)
  }

  lemma {:induction false} SortByIsSorted<T>(s: seq<T>, key: T -> real, descending: bool)
    ensures SortedBy(SortBy(s, key, descending), key, descending)
  {
    if s != [] {
      SortByIsSorted(s[1..], key, descending);
      InsertSorted(s[0], SortBy(s[1..], key, descending), key, descending);
    }
  }

  /** The elements whose key is `k`. */
  function HasKey<T>(key: T -> real, k: real): T -> bool {
    x => key(x) == k
  }

  lemma {:induction false} InsertStable<T>(x: T, s: seq<T>, key: T -> real, descending: bool, k: real)
    ensures Filter(Insert(x, s, key, descending), HasKey(key, k))
         == Filter([x] + s, HasKey(key, k))
  {
    var p := HasKey(key, k);
    if s != [] && !Before(key(x), key(s[0]), descending) {
      var rest := Insert(x, s[1..], key, descending);
      var fx, f0, ft := Filter([x], p), Filter([s[0]], p), Filter(s[1..], p);
      assert Filter(Insert(x, s, key, descending), p) == f0 + (fx + ft) by {
        InsertStable(x, s[1..], key, descending, k);
        assert Insert(x, s, key, descending) == [s[0]] + rest;
        FilterConcat([s[0]], rest, p);
        FilterConcat([x], s[1..], p);
      }
      assert Filter([x] + s, p) == fx + (f0 + ft) by {
        assert s == [s[0]] + s[1..];
        FilterConcat([x], s, p);
        FilterConcat([s[0]], s[1..], p);
      }
      assert f0 == [] || fx == [] by {
        FilterSingle(x, p);
        FilterSingle(s[0], p);
      }
      SwapUnmatched(fx, f0, ft);
    } else {
      assert Insert(x, s, key, descending) == [x] + s;
    }
  }

  lemma SwapUnmatched<T>(fx: seq<T>, f0: seq<T>, ft: seq<T>)
    requires f0 == [] || fx == []
    ensures f0 + (fx + ft) == fx + (f0 + ft)
  {
    if f0 == [] {
      assert f0 + (fx + ft) == fx + ft;
      assert f0 + ft == ft;
    } else {
      assert fx + (f0 + ft) == f0 + ft;
      assert fx + ft == ft;
    }
  }

  /** Stability: among elements with equal keys the input order is kept. */
  lemma {:induction false} SortByStable<T>(s: seq<T>, key: T -> real, descending: bool, k: real)
    ensures Filter(SortBy(s, key, descending), HasKey(key, k)) == Filter(s, HasKey(key, k))
  {
    if s != [] {
      var p := HasKey(key, k);
      SortByStable(s[1..], key, descending, k);
      InsertStable(s[0], SortBy(s[1..], key, descending), key, descending, k);
      assert ([s[0]] + SortBy(s[1..], key, descending))[1..] == SortBy(s[1..], key, descending);
    }
  }

  /** The first k elements of the descending order are the k largest keys: they come
      from `s`, in order, and every element of `s` left out has a key no larger than any
      kept one. */
  lemma SortedPrefixIsBest<T>(s: seq<T>, key: T -> real, k: nat)
    ensures var top := SliceTo(SortBy(s, key, true), k);
            |top| == (if |s| < k then |s| else k)
            && multiset(top) <= multiset(s)
            && (forall i, j :: 0 <= i < j < |top| ==> key(top[i]) >= key(top[j]))
            && (forall x :: x in multiset(s) - multiset(top) ==>
                  forall i :: 0 <= i < |top| ==> key(x) <= key(top[i]))
  {
    var sorted := SortBy(s, key, true);
    var n := if |s| < k then |s| else k;
    assert SliceTo(sorted, k) == sorted[..n];
    PrefixFromSorted(s, key, n);
    PrefixOrdered(s, key, n);
    forall x | x in multiset(s) - multiset(sorted[..n])
      ensures forall i :: 0 <= i < n ==> key(x) <= key(sorted[..n][i])
    {
      LeftOutIsSmaller(s, key, n, x);
    }
  }

  lemma PrefixFromSorted<T>(s: seq<T>, key: T -> real, n: nat)
    requires n <= |s|
    ensures multiset(SortBy(s, key, true)[..n]) <= multiset(s)
  {
    PrefixSubMultiset(SortBy(s, key, true), n);
  }

  lemma PrefixSubMultiset<T>(s: seq<T>, n: nat)
    requires n <= |s|
    ensures multiset(s[..n]) <= multiset(s)
  {
    assert s == s[..n] + s[n..];
    assert multiset(s) == multiset(s[..n]) + multiset(s[n..]);
  }

  lemma PrefixOrdered<T>(s: seq<T>, key: T -> real, n: nat)
    requires n <= |s|
    ensures var top := SortBy(s, key, true)[..n];
            forall i, j :: 0 <= i < j < n ==> key(top[i]) >= key(top[j])
  {
    var sorted := SortBy(s, key, true);
    SortByIsSorted(s, key, true);
    forall i, j | 0 <= i < j < n
      ensures key(sorted[i]) >= key(sorted[j])
    {
      assert Before(key(sorted[i]), key(sorted[j]), true);
    }
  }

  lemma LeftOutIsSmaller<T>(s: seq<T>, key: T -> real, n: nat, x: T)
    requires n <= |s| && x in multiset(s) - multiset(SortBy(s, key, true)[..n])
    ensures forall i :: 0 <= i < n ==> key(x) <= key(SortBy(s, key, true)[..n][i])
  {
    var sorted := SortBy(s, key, true);
    SortByIsSorted(s, key, true);
    var j := BeyondPrefix(sorted, n, x);
    forall i | 0 <= i < n
      ensures key(x) <= key(sorted[..n][i])
    {
      assert Before(key(sorted[i]), key(sorted[j]), true);
    }
  }

  /** An element with more copies in `s` than in its first n elements occurs after them. */
  lemma BeyondPrefix<T>(s: seq<T>, n: nat, x: T) returns (j: nat)
    requires n <= |s| && x in multiset(s) - multiset(s[..n])
    ensures n <= j < |s| && s[j] == x
  {
    assert s == s[..n] + s[n..];
    assert multiset(s) == multiset(s[..n]) + multiset(s[n..]);
    assert x in s[n..];
    var k :| 0 <= k < |s[n..]| && s[n..][k] == x;
    j := n + k;
  }
}

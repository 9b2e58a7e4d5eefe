/** The array built-ins the pages use: `filter`, `slice(0, n)` and an order
    reversal, with what each promises about the elements it keeps. */
module Seqs {

  /** `r` can be obtained from `s` by deleting elements: it keeps their order. */
  predicate IsSubsequence<T(==)>(r: seq<T>, s: seq<T>)
    decreases |s|
  {
    if r == [] then true
    else if s == [] then false
    else if r[0] == s[0] then IsSubsequence(r[1..], s[1..])
    else IsSubsequence(r, s[1..])
  }

  /** `s.filter(p)`: the elements of `s` that satisfy `p`, in order. */
  function Filter<T(!new)>(s: seq<T>, p: T -> bool): (r: seq<T>)
    ensures |r| <= |s|
    ensures forall x :: x in r <==> x in s && p(x)
  {
    if s == [] then []
    else if p(s[0]) then [s[0]] + Filter(s[1..], p)
    else Filter(s[1..], p)
  }

  /** Every element that passes is kept as often as it occurs, and every
      other element is dropped. */
  lemma {:induction false} FilterCounts<T(!new)>(s: seq<T>, p: T -> bool)
    ensures forall x :: multiset(Filter(s, p))[x] == if p(x) then multiset(s)[x] else 0
  {
    if s != [] {
      FilterCounts(s[1..], p);
      assert s == [s[0]] + s[1..];
    }
  }

  /** The kept elements stay in their order. */
  lemma {:induction false} FilterIsSubsequence<T(!new)>(s: seq<T>, p: T -> bool)
    ensures IsSubsequence(Filter(s, p), s)
  {
    if s != [] {
      FilterIsSubsequence(s[1..], p);
      var rest := Filter(s[1..], p);
      if p(s[0]) {
        assert ([s[0]] + rest)[1..] == rest;
      } else {
        assert rest == [] || rest[0] != s[0];
      }
    }
  }

  /** `s.slice(0, n)`: the first `n` elements, or all of them when there are fewer. */
  function Take<T>(s: seq<T>, n: nat): (r: seq<T>)
    ensures |r| == if |s| <= n then |s| else n
    ensures r <= s
  {
    if |s| <= n then s else s[..n]
  }

  function Reverse<T>(s: seq<T>): (r: seq<T>)
    ensures |r| == |s|
    ensures forall i :: 0 <= i < |s| ==> r[i] == s[|s| - 1 - i]
    ensures multiset(r) == multiset(s)
  {
    if s == [] then []
    else
      assert s == [s[0]] + s[1..];
      Reverse(s[1..]) + [s[0]]
  }

  /** The first `n` matches of a sequence whose head passes start with it. */
  lemma FirstMatchesKeepHead<T(!new)>(s: seq<T>, p: T -> bool, n: nat)
    requires s != [] && p(s[0]) && n != 0
    ensures Take(Filter(s, p), n) == [s[0]] + Take(Filter(s[1..], p), n - 1)
  {
    assert s == [s[0]] + s[1..];
    FilterCons(s[0], s[1..], p);
    TakeCons(s[0], Filter(s[1..], p), n);
  }

  lemma TakeCons<T>(h: T, t: seq<T>, n: nat)
    requires n != 0
    ensures Take([h] + t, n) == [h] + Take(t, n - 1)
  {
    if |t| + 1 > n {
      assert ([h] + t)[..n] == [h] + t[..n - 1];
    }
  }

  /** A head that does not pass is not among the matches. */
  lemma FirstMatchesSkipHead<T(!new)>(s: seq<T>, p: T -> bool, n: nat)
    requires s != [] && !p(s[0])
    ensures Take(Filter(s, p), n) == Take(Filter(s[1..], p), n)
  {
  }

  /** No element occurs twice. */
  predicate NoRepeats<T(==)>(s: seq<T>) {
    s == [] || (s[0] !in s[1..] && NoRepeats(s[1..]))
  }

  lemma {:induction false} DistinctHasNoRepeats<T>(s: seq<T>)
    requires forall a, b :: 0 <= a < b < |s| ==> s[a] != s[b]
    ensures NoRepeats(s)
  {
    if s != [] {
      var t := s[1..];
      forall a, b | 0 <= a < b < |t| ensures t[a] != t[b] {
        assert t[a] == s[a + 1] && t[b] == s[b + 1];
      }
      DistinctHasNoRepeats(t);
      forall k | 0 <= k < |t| ensures t[k] != s[0] {
        assert t[k] == s[k + 1];
      }
    }
  }

  /** The first `n` elements that pass, found by walking the sequence. */
  function FirstMatches<T>(s: seq<T>, p: T -> bool, n: nat): seq<T> {
    if s == [] || n == 0 then []
    else if p(s[0]) then [s[0]] + FirstMatches(s[1..], p, n - 1)
    else FirstMatches(s[1..], p, n)
  }

  /** `filter` followed by `slice(0, n)` keeps the first `n` elements that pass. */
  lemma {:induction false} FirstMatchesIsTakeFilter<T(!new)>(s: seq<T>, p: T -> bool, n: nat)
    ensures FirstMatches(s, p, n) == Take(Filter(s, p), n)
  {
    if s != [] && n != 0 {
      if p(s[0]) {
        FirstMatchesIsTakeFilter(s[1..], p, n - 1);
        FirstMatchesKeepHead(s, p, n);
      } else {
        FirstMatchesIsTakeFilter(s[1..], p, n);
        FirstMatchesSkipHead(s, p, n);
      }
    }
  }

  /** In a sequence without repeats, the first `n` elements that pass skip no
      element that passes before one of them. */
  lemma {:induction false} FirstMatchesSkipNothing<T>(s: seq<T>, p: T -> bool, n: nat, i: nat, j: nat)
    requires NoRepeats(s)
    requires i < j < |s| && p(s[i]) && s[j] in FirstMatches(s, p, n)
    ensures s[i] in FirstMatches(s, p, n)
    decreases |s|
  {
    var t := s[1..];
    assert t[j - 1] == s[j];
    if p(s[0]) {
      if i != 0 {
        assert t[i - 1] == s[i];
        assert s[j] != s[0];
        FirstMatchesSkipNothing(t, p, n - 1, i - 1, j - 1);
      }
    } else {
      assert t[i - 1] == s[i];
      FirstMatchesSkipNothing(t, p, n, i - 1, j - 1);
    }
  }

  /** A prefix of a subsequence is a subsequence. */
  lemma {:induction false} PrefixOfSubsequence<T>(r: seq<T>, s: seq<T>, n: nat)
    requires IsSubsequence(r, s) && n <= |r|
    ensures IsSubsequence(r[..n], s)
    decreases |s|
  {
    if n == 0 || r == [] {
    } else if r[0] == s[0] {
      PrefixOfSubsequence(r[1..], s[1..], n - 1);
      assert r[..n][1..] == r[1..][..n - 1];
    } else {
      PrefixOfSubsequence(r, s[1..], n);
    }
  }

  /** A test and its negation split the elements: together they keep all of
      them, each exactly once. */
  lemma {:induction false} FilterSplitsLength<T(!new)>(s: seq<T>, p: T -> bool, q: T -> bool)
    requires forall x :: q(x) == !p(x)
    ensures |Filter(s, p)| + |Filter(s, q)| == |s|
    ensures multiset(Filter(s, p)) + multiset(Filter(s, q)) == multiset(s)
  {
    if s != [] {
      FilterSplitsLength(s[1..], p, q);
    }
    FilterCounts(s, p);
    FilterCounts(s, q);
  }

  /** Three pairwise exclusive and jointly exhaustive tests split the length. */
  lemma {:induction false} FilterSplitsLength3<T(!new)>(s: seq<T>, p: T -> bool, q: T -> bool, t: T -> bool)
    requires forall x :: (p(x) && !q(x) && !t(x)) || (!p(x) && q(x) && !t(x)) || (!p(x) && !q(x) && t(x))
    ensures |Filter(s, p)| + |Filter(s, q)| + |Filter(s, t)| == |s|
  {
    if s != [] {
      FilterSplitsLength3(s[1..], p, q, t);
    }
  }

  /** Filtering with a test every element passes changes nothing. */
  lemma {:induction false} FilterKeepsAll<T(!new)>(s: seq<T>, p: T -> bool)
    requires forall x :: x in s ==> p(x)
    ensures Filter(s, p) == s
  {
    if s != [] {
      FilterKeepsAll(s[1..], p);
    }
  }

  /** Two filters in a row are one filter with both tests. */
  lemma {:induction false} FilterThenFilter<T(!new)>(s: seq<T>, p: T -> bool, q: T -> bool, both: T -> bool)
    requires forall x :: both(x) == (p(x) && q(x))
    ensures Filter(Filter(s, p), q) == Filter(s, both)
  {
    if s != [] {
      FilterThenFilter(s[1..], p, q, both);
      var f := Filter(s[1..], p);
      if p(s[0]) {
        assert ([s[0]] + f)[1..] == f;
      }
    }
  }

  /** Filters with tests that agree everywhere keep the same elements. */
  lemma {:induction false} FilterSamePredicate<T(!new)>(s: seq<T>, p: T -> bool, q: T -> bool)
    requires forall x :: p(x) == q(x)
    ensures Filter(s, p) == Filter(s, q)
  {
    if s != [] {
      FilterSamePredicate(s[1..], p, q);
    }
  }

  /** Filtering a prefix gives a prefix of the filtered sequence. */
  lemma FilterPrefix<T(!new)>(a: seq<T>, b: seq<T>, p: T -> bool)
    requires a <= b
    ensures Filter(a, p) <= Filter(b, p)
  {
    assert b == a + b[|a|..];
    FilterAppend(a, b[|a|..], p);
  }

  /** One step of `Filter`: the head is kept exactly when it passes. */
  lemma FilterCons<T(!new)>(h: T, t: seq<T>, p: T -> bool)
    ensures Filter([h] + t, p) == if p(h) then [h] + Filter(t, p) else Filter(t, p)
  {
    assert ([h] + t)[0] == h && ([h] + t)[1..] == t;
  }

  /** Filtering distributes over concatenation. */
  lemma {:induction false} FilterAppend<T(!new)>(a: seq<T>, b: seq<T>, p: T -> bool)
    ensures Filter(a + b, p) == Filter(a, p) + Filter(b, p)
  {
    if a != [] {
      assert (a + b)[1..] == a[1..] + b;
      FilterAppend(a[1..], b, p);
    } else {
      assert a + b == b;
    }
  }
}

/** `Array.prototype.sort` with a comparator, which the language requires to be
    stable. The comparator `cmp` is given as the relation `le(a, b)` that holds
    when `cmp(a, b) <= 0`, that is, when `a` may stay in front of `b`. */
module Sorting {
  import opened Seqs

  /** A comparator that is consistent: any two elements compare, and
      "may precede" is transitive. */
  ghost predicate TotalPreorder<T(!new)>(le: (T, T) -> bool) {
    && (forall a, b :: le(a, b) || le(b, a))
    && (forall a, b, c :: le(a, b) && le(b, c) ==> le(a, c))
  }

  ghost predicate SortedBy<T>(s: seq<T>, le: (T, T) -> bool) {
    forall i, j :: 0 <= i < j < |s| ==> le(s[i], s[j])
  }

  /** The elements that compare equal to `v` (the comparator returns 0). */
  function Ties<T>(le: (T, T) -> bool, v: T): T -> bool {
    e => le(e, v) && le(v, e)
  }

  /** Puts `x` in front of the first element it may precede. */
  function Insert<T>(x: T, r: seq<T>, le: (T, T) -> bool): (o: seq<T>)
    ensures |o| == |r| + 1
    ensures multiset(o) == multiset(r) + multiset{x}
  {
    if r == [] || le(x, r[0]) then [x] + r
    else
      assert r == [r[0]] + r[1..];
      [r[0]] + Insert(x, r[1..], le)
  }

  /** A stable sort: each element goes in front of the equal elements that
      come after it in the input. */
  function Sort<T>(s: seq<T>, le: (T, T) -> bool): (r: seq<T>)
    ensures |r| == |s|
    ensures multiset(r) == multiset(s)
  {
    if s == [] then []
    else
      assert s == [s[0]] + s[1..];
      Insert(s[0], Sort(s[1..], le), le)
  }

  lemma {:induction false} InsertSorted<T(!new)>(x: T, r: seq<T>, le: (T, T) -> bool)
    requires TotalPreorder(le) && SortedBy(r, le)
    ensures SortedBy(Insert(x, r, le), le)
  {
    if r == [] || le(x, r[0]) {
    } else {
      var tail := Insert(x, r[1..], le);
      InsertSorted(x, r[1..], le);
      forall y | y in tail ensures le(r[0], y) {
        assert y in multiset(tail);
        if y != x {
          assert y in r[1..];
        }
      }
    }
  }

  /** The sorted output is ordered by the comparator. */
  lemma {:induction false} SortSorted<T(!new)>(s: seq<T>, le: (T, T) -> bool)
    requires TotalPreorder(le)
    ensures SortedBy(Sort(s, le), le)
  {
    if s != [] {
      SortSorted(s[1..], le);
      InsertSorted(s[0], Sort(s[1..], le), le);
    }
  }

  lemma {:induction false} InsertTies<T(!new)>(x: T, r: seq<T>, le: (T, T) -> bool, v: T)
    requires TotalPreorder(le)
    ensures Filter(Insert(x, r, le), Ties(le, v))
         == if Ties(le, v)(x) then [x] + Filter(r, Ties(le, v)) else Filter(r, Ties(le, v))
  {
    var q := Ties(le, v);
    if r == [] || le(x, r[0]) {
      FilterCons(x, r, q);
    } else {
      var t := Insert(x, r[1..], le);
      var kept := Filter(r[1..], q);
      assert Insert(x, r, le) == [r[0]] + t;
      assert Filter(t, q) == if q(x) then [x] + kept else kept by {
        InsertTies(x, r[1..], le, v);
      }
      assert Filter(r, q) == if q(r[0]) then [r[0]] + kept else kept by {
        assert r == [r[0]] + r[1..];
        FilterCons(r[0], r[1..], q);
      }
      FilterCons(r[0], t, q);
      if q(x) {
        assert !q(r[0]) by {
          TieStopsBefore(x, r[0], le, v);
        }
      }
    }
  }

  /** An element tied with `v` that may not precede `y` is not tied with `y`'s
      ties: `y` is not tied with `v` either. */
  lemma TieStopsBefore<T(!new)>(x: T, y: T, le: (T, T) -> bool, v: T)
    requires TotalPreorder(le)
    requires Ties(le, v)(x) && !le(x, y)
    ensures !Ties(le, v)(y)
  {
  }

  /** Stability: the elements that compare equal keep their input order. */
  lemma {:induction false} SortStable<T(!new)>(s: seq<T>, le: (T, T) -> bool, v: T)
    requires TotalPreorder(le)
    ensures Filter(Sort(s, le), Ties(le, v)) == Filter(s, Ties(le, v))
  {
    if s != [] {
      SortStable(s[1..], le, v);
      InsertTies(s[0], Sort(s[1..], le), le, v);
    }
  }

  /** In a sequence whose key strictly decreases, the head has the largest key. */
  lemma HeadHasLargestKey<T>(a: seq<T>, key: T -> int, x: T)
    requires forall i, j :: 0 <= i < j < |a| ==> key(a[i]) > key(a[j])
    requires x in a
    ensures key(x) <= key(a[0])
  {
    var m :| 0 <= m < |a| && a[m] == x;
    if m != 0 {
      assert key(a[0]) > key(a[m]);
    }
  }

  lemma SameTails<T>(a: seq<T>, b: seq<T>)
    requires a != [] && b != [] && a[0] == b[0] && multiset(a) == multiset(b)
    ensures multiset(a[1..]) == multiset(b[1..])
  {
    assert a == [a[0]] + a[1..] && b == [b[0]] + b[1..];
    forall x ensures multiset(a[1..])[x] == multiset(b[1..])[x] {
      assert multiset(a)[x] == multiset{a[0]}[x] + multiset(a[1..])[x];
      assert multiset(b)[x] == multiset{a[0]}[x] + multiset(b[1..])[x];
    }
  }

  /** Two orderings of the same elements that both strictly decrease in a key
      are the same sequence. */
  lemma {:induction false} StrictlyOrderedIsUnique<T>(a: seq<T>, b: seq<T>, key: T -> int)
    requires multiset(a) == multiset(b)
    requires forall i, j :: 0 <= i < j < |a| ==> key(a[i]) > key(a[j])
    requires forall i, j :: 0 <= i < j < |b| ==> key(b[i]) > key(b[j])
    ensures a == b
  {
    if a == [] {
      assert |b| == |multiset(b)| == 0;
    } else {
      assert |b| == |multiset(b)| == |a|;
      assert a[0] in multiset(b) && b[0] in multiset(a);
      HeadHasLargestKey(a, key, b[0]);
      HeadHasLargestKey(b, key, a[0]);
      var k :| 0 <= k < |b| && b[k] == a[0];
      assert k == 0;
      SameTails(a, b);
      StrictlyOrderedIsUnique(a[1..], b[1..], key);
    }
  }
}

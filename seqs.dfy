/**
 * The LINQ operators the services use, as functions on sequences:
 * `Where` (Filter), `Distinct`, stable `OrderBy` (SortBy), `Skip`/`Take`.
 */
module Seqs {
  import opened Wrappers

  /** `Where`: the elements of `s` that satisfy `p`, in their original order. */
  function Filter<T>(s: seq<T>, p: T -> bool): (r: seq<T>)
    ensures |r| <= |s|
    ensures forall i :: 0 <= i < |r| ==> r[i] in s && p(r[i])
    ensures forall i :: 0 <= i < |s| && p(s[i]) ==> s[i] in r
    decreases |s|
  {
    if s == [] then []
    else
      var front := Filter(s[..|s| - 1], p);
      if p(s[|s| - 1]) then front + [s[|s| - 1]] else front
  }

  /** An element is kept by the filter exactly when it is in the input and passes. */
  lemma FilterMember<T>(s: seq<T>, p: T -> bool, x: T)
    ensures x in Filter(s, p) <==> x in s && p(x)
  {
    if x in Filter(s, p) {
      var i :| 0 <= i < |Filter(s, p)| && Filter(s, p)[i] == x;
    }
    if x in s && p(x) {
      var i :| 0 <= i < |s| && s[i] == x;
    }
  }

  /**
   * The filter keeps every passing element as often as it occurs and drops
   * every other: its multiset is the input's restricted to `p`.
   */
  lemma {:induction false} FilterMultiplicity<T>(s: seq<T>, p: T -> bool, x: T)
    ensures multiset(Filter(s, p))[x] == if p(x) then multiset(s)[x] else 0
    decreases |s|
  {
    if s != [] {
      var front := s[..|s| - 1];
      FilterMultiplicity(front, p, x);
      assert s == front + [s[|s| - 1]];
    }
  }

  /** Nothing passes the filter exactly when no element satisfies the predicate. */
  lemma FilterEmpty<T>(s: seq<T>, p: T -> bool)
    ensures |Filter(s, p)| == 0 <==> forall i :: 0 <= i < |s| ==> !p(s[i])
  {
    var r := Filter(s, p);
    if |r| > 0 {
      assert r[0] in s && p(r[0]);
    }
  }

  /** The filter starts with the first element that passes. */
  lemma FilterHead<T>(s: seq<T>, p: T -> bool, k: int)
    requires 0 <= k < |s| && p(s[k])
    requires forall j :: 0 <= j < k ==> !p(s[j])
    ensures Filter(s, p) != [] && Filter(s, p)[0] == s[k]
  {
    assert s == s[..k] + ([s[k]] + s[k + 1..]);
    FilterAppend(s[..k], [s[k]] + s[k + 1..], p);
    FilterAppend([s[k]], s[k + 1..], p);
    FilterEmpty(s[..k], p);
    FilterSingle(s[k], p);
  }

  /** The first position of `s` whose element has the key of `c`, which is in `s`. */
  lemma {:induction false} FirstWithKey<T>(s: seq<T>, key: T -> int, c: T) returns (k: int)
    requires c in s
    ensures 0 <= k < |s| && key(s[k]) == key(c)
    ensures forall j :: 0 <= j < k ==> key(s[j]) != key(c)
    decreases |s|
  {
    if key(s[0]) == key(c) {
      k := 0;
    } else {
      assert c in s[1..];
      var rest := FirstWithKey(s[1..], key, c);
      k := rest + 1;
      forall j | 0 < j < k
        ensures key(s[j]) != key(c)
      {
        assert s[j] == s[1..][j - 1];
      }
    }
  }

  /**
   * The head `c` of an ordering of `s` that keeps the elements with the
   * same key in their order is the first element of `s` with its key.
   */
  lemma StableHeadIsFirst<T>(s: seq<T>, sorted: seq<T>, key: T -> int, c: T)
    requires sorted != [] && c == sorted[0] && c in s
    requires Filter(sorted, SameKey(key, c)) == Filter(s, SameKey(key, c))
    ensures exists k :: 0 <= k < |s| && c == s[k] && forall j :: 0 <= j < k ==> key(s[j]) != key(c)
  {
    var k := FirstWithKey(s, key, c);
    FilterHead(sorted, SameKey(key, c), 0);
    FilterHead(s, SameKey(key, c), k);
  }

  /** Filtering distributes over concatenation. */
  lemma {:induction false} FilterAppend<T>(a: seq<T>, b: seq<T>, p: T -> bool)
    ensures Filter(a + b, p) == Filter(a, p) + Filter(b, p)
    decreases |b|
  {
    if b == [] {
      assert a + b == a;
    } else {
      var b' := b[..|b| - 1];
      assert (a + b)[..|a + b| - 1] == a + b';
      FilterAppend(a, b', p);
    }
  }

  /** Every element satisfies `p` or does not: the two filters split `s`. */
  lemma {:induction false} FilterSplit<T>(s: seq<T>, p: T -> bool, q: T -> bool)
    requires forall x :: q(x) == !p(x)
    ensures |Filter(s, p)| + |Filter(s, q)| == |s|
    decreases |s|
  {
    if s != [] {
      FilterSplit(s[..|s| - 1], p, q);
    }
  }

  /** A filter every element passes changes nothing. */
  lemma {:induction false} FilterKeepsAll<T>(s: seq<T>, p: T -> bool)
    requires forall i :: 0 <= i < |s| ==> p(s[i])
    ensures Filter(s, p) == s
    decreases |s|
  {
    if s != [] {
      FilterKeepsAll(s[..|s| - 1], p);
      assert s[..|s| - 1] + [s[|s| - 1]] == s;
    }
  }

  /** Filtering twice is filtering once by the conjunction. */
  lemma {:induction false} FilterFilter<T>(s: seq<T>, p: T -> bool, q: T -> bool, pq: T -> bool)
    requires forall x :: pq(x) == (p(x) && q(x))
    ensures Filter(Filter(s, p), q) == Filter(s, pq)
    decreases |s|
  {
    if s != [] {
      var s' := s[..|s| - 1];
      FilterFilter(s', p, q, pq);
      var x := s[|s| - 1];
      if p(x) {
        var f := Filter(s', p);
        assert (f + [x])[..|f + [x]| - 1] == f;
      }
    }
  }

  /** Replacing one element changes the filtered count by what the two elements contribute. */
  lemma FilterReplaceCount<T>(s: seq<T>, p: T -> bool, i: int, x: T)
    requires 0 <= i < |s|
    ensures |Filter(s[i := x], p)| == |Filter(s, p)| - (if p(s[i]) then 1 else 0) + (if p(x) then 1 else 0)
  {
    var a, b := s[..i], s[i + 1..];
    assert s == a + [s[i]] + b;
    assert s[i := x] == a + [x] + b;
    FilterAppend(a + [s[i]], b, p);
    FilterAppend(a, [s[i]], p);
    FilterAppend(a + [x], b, p);
    FilterAppend(a, [x], p);
    assert [s[i]][..0] == [] && [x][..0] == [];
  }

  /** Two predicates that agree on the elements of `s` filter it alike. */
  lemma {:induction false} FilterCongruent<T>(s: seq<T>, p: T -> bool, q: T -> bool)
    requires forall x :: x in s ==> p(x) == q(x)
    ensures Filter(s, p) == Filter(s, q)
    decreases |s|
  {
    if s != [] {
      var s' := s[..|s| - 1];
      assert forall x :: x in s' ==> x in s;
      FilterCongruent(s', p, q);
    }
  }

  /** No element occurs twice. */
  predicate NoDup<T(==)>(s: seq<T>)
  {
    forall i, j :: 0 <= i < j < |s| ==> s[i] != s[j]
  }

  /** `Distinct`: the first occurrence of every element, in order of first occurrence. */
  function Distinct<T(==)>(s: seq<T>): (r: seq<T>)
    ensures NoDup(r)
    ensures forall i :: 0 <= i < |r| ==> r[i] in s
    ensures forall i :: 0 <= i < |s| ==> s[i] in r
    ensures |r| <= |s|
    decreases |s|
  {
    if s == [] then []
    else
      var front := Distinct(s[..|s| - 1]);
      var x := s[|s| - 1];
      if x in front then front else front + [x]
  }

  /** Filtering a duplicate-free sequence keeps it duplicate-free. */
  lemma {:induction false} FilterNoDup<T>(s: seq<T>, p: T -> bool)
    requires NoDup(s)
    ensures NoDup(Filter(s, p))
    decreases |s|
  {
    if s != [] {
      var front := s[..|s| - 1];
      var x := s[|s| - 1];
      assert NoDup(front);
      FilterNoDup(front, p);
      assert x !in front;
      assert x !in Filter(front, p);
    }
  }

  /** Reordering a duplicate-free sequence keeps it duplicate-free. */
  lemma NoDupPermutation<T>(s: seq<T>, r: seq<T>)
    requires NoDup(s) && multiset(r) == multiset(s)
    ensures NoDup(r)
  {
    forall i, j | 0 <= i < j < |r|
      ensures r[i] != r[j]
    {
      if r[i] == r[j] {
        var x := r[i];
        assert r == r[..j] + r[j..];
        assert x in r[..j] && x in r[j..];
        assert multiset(r)[x] == multiset(r[..j])[x] + multiset(r[j..])[x];
        NoDupOccursOnce(s, x);
        assert false;
      }
    }
  }

  /** The number of elements of `s` equal to `x`. */
  function Occurrences<T(==)>(s: seq<T>, x: T): nat
  {
    multiset(s)[x]
  }

  /** A duplicate-free sequence holds each of its elements exactly once. */
  lemma {:induction false} NoDupOccursOnce<T>(s: seq<T>, x: T)
    requires NoDup(s)
    ensures Occurrences(s, x) == if x in s then 1 else 0
    decreases |s|
  {
    if s != [] {
      var s' := s[..|s| - 1];
      assert s == s' + [s[|s| - 1]];
      NoDupOccursOnce(s', x);
      if x in s' {
        var k :| 0 <= k < |s'| && s'[k] == x;
        assert s[k] == x && s[|s| - 1] != x;
      }
    }
  }

  // ----- ordering -----

  /** `le` is a total preorder: what LINQ's stable `OrderBy` needs of a key order. */
  ghost predicate TotalPreorder<T(!new)>(le: (T, T) -> bool)
  {
    && (forall a, b :: le(a, b) || le(b, a))
    && (forall a, b, c :: le(a, b) && le(b, c) ==> le(a, c))
  }

  /** Every element is `le` every later element. */
  predicate SortedBy<T>(s: seq<T>, le: (T, T) -> bool)
  {
    forall i, j :: 0 <= i < j < |s| ==> le(s[i], s[j])
  }

  /** Inserts `x` before the first element it is `le` to. */
  function Insert<T>(x: T, s: seq<T>, le: (T, T) -> bool): (r: seq<T>)
    ensures |r| == |s| + 1
    ensures multiset(r) == multiset(s) + multiset{x}
    decreases |s|
  {
    if s == [] then [x]
    else if le(x, s[0]) then [x] + s
    else
      assert s == [s[0]] + s[1..];
      [s[0]] + Insert(x, s[1..], le)
  }

  /** `OrderBy`: a stable insertion sort by the order `le`. */
  function SortBy<T>(s: seq<T>, le: (T, T) -> bool): (r: seq<T>)
    ensures |r| == |s|
    ensures multiset(r) == multiset(s)
    decreases |s|
  {
    if s == [] then []
    else
      assert s == [s[0]] + s[1..];
      Insert(s[0], SortBy(s[1..], le), le)
  }

  /** The elements `le` ranks alike with `c`. */
  function SameRank<T>(le: (T, T) -> bool, c: T): T -> bool
  {
    (y: T) => le(c, y) && le(y, c)
  }

  /**
   * Inserting `x` puts it ahead of every element ranked alike, and leaves
   * the others in their order.
   */
  lemma {:induction false} InsertStable<T(!new)>(x: T, s: seq<T>, le: (T, T) -> bool, c: T)
    requires TotalPreorder(le)
    ensures SameRank(le, c)(x) ==> Filter(Insert(x, s, le), SameRank(le, c)) == [x] + Filter(s, SameRank(le, c))
    ensures !SameRank(le, c)(x) ==> Filter(Insert(x, s, le), SameRank(le, c)) == Filter(s, SameRank(le, c))
    decreases |s|
  {
    var e := SameRank(le, c);
    FilterSingle(x, e);
    if s == [] {
    } else if le(x, s[0]) {
      FilterAppend([x], s, e);
    } else {
      assert Insert(x, s, le) == [s[0]] + Insert(x, s[1..], le);
      InsertStable(x, s[1..], le, c);
      if e(x) {
        SameRankOrdered(le, c, x, s[0]);
      }
      InsertStableStep(x, s, Insert(x, s[1..], le), e);
    }
  }

  /** The step of `InsertStable` past an element `x` goes behind. */
  lemma InsertStableStep<T>(x: T, s: seq<T>, rest: seq<T>, e: T -> bool)
    requires s != []
    requires e(x) ==> !e(s[0]) && Filter(rest, e) == [x] + Filter(s[1..], e)
    requires !e(x) ==> Filter(rest, e) == Filter(s[1..], e)
    ensures e(x) ==> Filter([s[0]] + rest, e) == [x] + Filter(s, e)
    ensures !e(x) ==> Filter([s[0]] + rest, e) == Filter(s, e)
  {
    assert s == [s[0]] + s[1..];
    FilterAppend([s[0]], rest, e);
    FilterAppend([s[0]], s[1..], e);
    FilterSingle(s[0], e);
  }

  /** An element that `x` is not `le` to is not ranked alike with `x`. */
  lemma SameRankOrdered<T(!new)>(le: (T, T) -> bool, c: T, x: T, y: T)
    requires TotalPreorder(le)
    requires SameRank(le, c)(x) && !le(x, y)
    ensures !SameRank(le, c)(y)
  {
    assert le(x, c);
  }

  /**
   * `OrderBy` is stable: the elements ranked alike come out in the order
   * they went in.
   */
  lemma {:induction false} SortByStable<T(!new)>(s: seq<T>, le: (T, T) -> bool, c: T)
    requires TotalPreorder(le)
    ensures Filter(SortBy(s, le), SameRank(le, c)) == Filter(s, SameRank(le, c))
    decreases |s|
  {
    if s != [] {
      var e := SameRank(le, c);
      assert s == [s[0]] + s[1..];
      SortByStable(s[1..], le, c);
      InsertStable(s[0], SortBy(s[1..], le), le, c);
      FilterAppend([s[0]], s[1..], e);
      FilterSingle(s[0], e);
    }
  }

  lemma {:induction false} InsertSorted<T(!new)>(x: T, s: seq<T>, le: (T, T) -> bool)
    requires TotalPreorder(le)
    requires SortedBy(s, le)
    ensures SortedBy(Insert(x, s, le), le)
    decreases |s|
  {
    if s != [] && !le(x, s[0]) {
      InsertSorted(x, s[1..], le);
      var r := Insert(x, s, le);
      var t := Insert(x, s[1..], le);
      assert r == [s[0]] + t;
      assert le(s[0], x);
      forall j | 0 < j < |r|
        ensures le(r[0], r[j])
      {
        assert r[j] in multiset(t);
        assert r[j] in multiset(s[1..]) + multiset{x};
        if r[j] != x {
          assert r[j] in s[1..];
          var k :| 0 <= k < |s[1..]| && s[1..][k] == r[j];
          assert s[k + 1] == r[j];
        }
      }
    }
  }

  /** The result of `OrderBy` is sorted by its key order. */
  lemma {:induction false} SortBySorted<T(!new)>(s: seq<T>, le: (T, T) -> bool)
    requires TotalPreorder(le)
    ensures SortedBy(SortBy(s, le), le)
    decreases |s|
  {
    if s != [] {
      SortBySorted(s[1..], le);
      InsertSorted(s[0], SortBy(s[1..], le), le);
    }
  }

  /** `OrderBy` keeps exactly the elements it was given. */
  lemma SortByMembers<T>(s: seq<T>, le: (T, T) -> bool, x: T)
    ensures x in SortBy(s, le) <==> x in s
  {
    var r := SortBy(s, le);
    assert x in r <==> x in multiset(r);
    assert x in s <==> x in multiset(s);
  }

  /** `OrderBy` keeps exactly the elements it was given, position by position. */
  lemma SortByKeepsAll<T>(s: seq<T>, le: (T, T) -> bool)
    ensures forall i :: 0 <= i < |SortBy(s, le)| ==> SortBy(s, le)[i] in s
    ensures forall i :: 0 <= i < |s| ==> s[i] in SortBy(s, le)
  {
    forall i | 0 <= i < |SortBy(s, le)|
      ensures SortBy(s, le)[i] in s
    {
      SortByMembers(s, le, SortBy(s, le)[i]);
    }
    forall i | 0 <= i < |s|
      ensures s[i] in SortBy(s, le)
    {
      SortByMembers(s, le, s[i]);
    }
  }

  /** Sorting a filtered sequence keeps exactly the elements that pass the filter. */
  lemma SortFilterMembers<T>(s: seq<T>, p: T -> bool, le: (T, T) -> bool)
    ensures var r := SortBy(Filter(s, p), le);
            && (forall i :: 0 <= i < |r| ==> r[i] in s && p(r[i]))
            && (forall i :: 0 <= i < |s| && p(s[i]) ==> s[i] in r)
  {
    var f := Filter(s, p);
    SortByKeepsAll(f, le);
    var r := SortBy(f, le);
    forall i | 0 <= i < |r|
      ensures r[i] in s && p(r[i])
    {
      var j :| 0 <= j < |f| && f[j] == r[i];
    }
    forall i | 0 <= i < |s| && p(s[i])
      ensures s[i] in r
    {
      var j :| 0 <= j < |f| && f[j] == s[i];
    }
  }

  /** The same, for one value: it is kept exactly when it occurs and passes. */
  lemma SortFilterMember<T>(s: seq<T>, p: T -> bool, le: (T, T) -> bool, x: T)
    ensures x in SortBy(Filter(s, p), le) <==> x in s && p(x)
  {
    var f := Filter(s, p);
    SortByMembers(f, le, x);
    if x in f {
      var j :| 0 <= j < |f| && f[j] == x;
    }
    if x in s && p(x) {
      var j :| 0 <= j < |s| && s[j] == x;
    }
  }

  /** The head of a sequence ordered by descending key is one of its elements with the largest key. */
  lemma DescendingHeadIsMax<T(!new)>(s: seq<T>, key: T -> int)
    requires SortBy(s, ByIntDescending(key)) != []
    ensures var h := SortBy(s, ByIntDescending(key))[0];
            h in s && forall i :: 0 <= i < |s| ==> key(s[i]) <= key(h)
  {
    var sorted := SortBy(s, ByIntDescending(key));
    ByIntDescendingIsPreorder(key);
    SortBySorted(s, ByIntDescending(key));
    SortByMembers(s, ByIntDescending(key), sorted[0]);
    forall i | 0 <= i < |s|
      ensures key(s[i]) <= key(sorted[0])
    {
      SortByMembers(s, ByIntDescending(key), s[i]);
      var j :| 0 <= j < |sorted| && sorted[j] == s[i];
      if j > 0 {
        assert ByIntDescending(key)(sorted[0], sorted[j]);
      }
    }
  }

  /** A bound on the key of every element that passes a filter holds for every element of `s` that satisfies it. */
  lemma FilterBound<T>(s: seq<T>, p: T -> bool, key: T -> int, h: T)
    requires forall i :: 0 <= i < |Filter(s, p)| ==> key(Filter(s, p)[i]) <= key(h)
    ensures forall i :: 0 <= i < |s| && p(s[i]) ==> key(s[i]) <= key(h)
  {
    var f := Filter(s, p);
    forall i | 0 <= i < |s| && p(s[i])
      ensures key(s[i]) <= key(h)
    {
      var j :| 0 <= j < |f| && f[j] == s[i];
    }
  }

  /** Integer key, ascending. */
  function ByInt<T>(key: T -> int): (T, T) -> bool
  {
    (a: T, b: T) => key(a) <= key(b)
  }

  /** Integer key, descending (`OrderByDescending`). */
  function ByIntDescending<T>(key: T -> int): (T, T) -> bool
  {
    (a: T, b: T) => key(a) >= key(b)
  }

  /** The elements whose key equals `c`'s. */
  function SameKey<T>(key: T -> int, c: T): T -> bool
  {
    (y: T) => key(y) == key(c)
  }

  /** Sorting by an integer key, either way, keeps the elements with equal keys in input order. */
  lemma SortByIntStable<T(!new)>(s: seq<T>, key: T -> int, c: T)
    ensures Filter(SortBy(s, ByInt(key)), SameKey(key, c)) == Filter(s, SameKey(key, c))
    ensures Filter(SortBy(s, ByIntDescending(key)), SameKey(key, c)) == Filter(s, SameKey(key, c))
  {
    ByIntIsPreorder(key);
    ByIntDescendingIsPreorder(key);
    SortByStable(s, ByInt(key), c);
    SortByStable(s, ByIntDescending(key), c);
    var up := SortBy(s, ByInt(key));
    var down := SortBy(s, ByIntDescending(key));
    FilterCongruent(s, SameRank(ByInt(key), c), SameKey(key, c));
    FilterCongruent(up, SameRank(ByInt(key), c), SameKey(key, c));
    FilterCongruent(s, SameRank(ByIntDescending(key), c), SameKey(key, c));
    FilterCongruent(down, SameRank(ByIntDescending(key), c), SameKey(key, c));
  }

  lemma ByIntIsPreorder<T(!new)>(key: T -> int)
    ensures TotalPreorder(ByInt(key))
  {
  }

  lemma ByIntDescendingIsPreorder<T(!new)>(key: T -> int)
    ensures TotalPreorder(ByIntDescending(key))
  {
  }

  // ----- paging -----

  /** `Skip(n)`: a non-positive count skips nothing, a count past the end leaves nothing. */
  function Skip<T>(s: seq<T>, n: int): (r: seq<T>)
  {
    if n <= 0 then s else if n >= |s| then [] else s[n..]
  }

  /** `Take(n)`: a non-positive count takes nothing. */
  function Take<T>(s: seq<T>, n: int): (r: seq<T>)
  {
    if n <= 0 then [] else if n >= |s| then s else s[..n]
  }

  /**
   * A loop that appends `f(x)` for each element whose `f` gives a value and
   * skips the others, as a function: the values, in order.
   */
  function Choose<A, B>(s: seq<A>, f: A -> Option<B>): (r: seq<B>)
    ensures |r| <= |s|
    decreases |s|
  {
    if s == [] then []
    else
      var front := Choose(s[..|s| - 1], f);
      var y := f(s[|s| - 1]);
      if y.Some? then front + [y.value] else front
  }

  /** One more step of the loop: the next element's value, if any, goes at the end. */
  lemma ChooseStep<A, B>(s: seq<A>, f: A -> Option<B>, i: int)
    requires 0 <= i < |s|
    ensures Choose(s[..i + 1], f) == Choose(s[..i], f) + (if f(s[i]).Some? then [f(s[i]).value] else [])
  {
    assert s[..i + 1][..i] == s[..i];
  }

  /** Every chosen value comes from an element, and every element's value is chosen. */
  lemma {:induction false} ChooseMembers<A, B>(s: seq<A>, f: A -> Option<B>)
    ensures forall k :: 0 <= k < |Choose(s, f)| ==> exists i :: 0 <= i < |s| && f(s[i]) == Some(Choose(s, f)[k])
    ensures forall i :: 0 <= i < |s| && f(s[i]).Some? ==> f(s[i]).value in Choose(s, f)
    decreases |s|
  {
    if s != [] {
      var front := s[..|s| - 1];
      ChooseMembers(front, f);
      var r := Choose(s, f);
      var fr := Choose(front, f);
      assert forall i :: 0 <= i < |front| ==> front[i] == s[i];
      forall k | 0 <= k < |r|
        ensures exists i :: 0 <= i < |s| && f(s[i]) == Some(r[k])
      {
        if k < |fr| {
          assert r[k] == fr[k];
          var i :| 0 <= i < |front| && f(front[i]) == Some(fr[k]);
          assert f(s[i]) == Some(r[k]);
        } else {
          assert f(s[|s| - 1]) == Some(r[k]);
        }
      }
      forall i | 0 <= i < |s| && f(s[i]).Some?
        ensures f(s[i]).value in r
      {
        if i < |front| {
          assert f(front[i]).value in fr;
        }
      }
    } else {
      assert |Choose(s, f)| == 0;
    }
  }

  /**
   * When each chosen value has the key of the element it came from and the
   * elements' keys are distinct, the chosen values' keys are distinct.
   */
  lemma {:induction false} ChooseDistinct<A, B, K>(s: seq<A>, f: A -> Option<B>, ka: A -> K, kb: B -> K)
    requires forall i :: 0 <= i < |s| && f(s[i]).Some? ==> kb(f(s[i]).value) == ka(s[i])
    requires forall i, j :: 0 <= i < j < |s| ==> ka(s[i]) != ka(s[j])
    ensures forall k, k' :: 0 <= k < k' < |Choose(s, f)| ==> kb(Choose(s, f)[k]) != kb(Choose(s, f)[k'])
    decreases |s|
  {
    if s != [] {
      var front := s[..|s| - 1];
      assert forall i :: 0 <= i < |front| ==> front[i] == s[i];
      ChooseDistinct(front, f, ka, kb);
      ChooseMembers(front, f);
      var fr := Choose(front, f);
      var y := f(s[|s| - 1]);
      if y.Some? {
        forall k | 0 <= k < |fr|
          ensures kb(fr[k]) != kb(y.value)
        {
          var i :| 0 <= i < |front| && f(front[i]) == Some(fr[k]);
          assert kb(fr[k]) == ka(s[i]);
        }
        assert Choose(s, f) == fr + [y.value];
      } else {
        assert Choose(s, f) == fr;
      }
    } else {
      assert |Choose(s, f)| == 0;
    }
  }

  /** Without duplicates, the number of chosen values is the number of elements that give one. */
  lemma {:induction false} ChooseCount<A, B>(s: seq<A>, f: A -> Option<B>)
    requires NoDup(s)
    ensures |Choose(s, f)| == |set x | x in s && f(x).Some?|
    decreases |s|
  {
    if s == [] {
      assert (set x | x in s && f(x).Some?) == {};
    } else {
      var front := s[..|s| - 1];
      var last := s[|s| - 1];
      assert s == front + [last];
      ChooseCount(front, f);
      var before := set x | x in front && f(x).Some?;
      assert last !in front;
      if f(last).Some? {
        assert (set x | x in s && f(x).Some?) == before + {last};
      } else {
        assert (set x | x in s && f(x).Some?) == before;
      }
    }
  }

  /** The keys of the elements of `s` that satisfy `p`. */
  function KeySet<T, K>(s: seq<T>, p: T -> bool, key: T -> K): set<K>
    decreases |s|
  {
    if s == [] then {}
    else KeySet(s[..|s| - 1], p, key) + (if p(s[|s| - 1]) then {key(s[|s| - 1])} else {})
  }

  lemma {:induction false} KeySetMembers<T, K>(s: seq<T>, p: T -> bool, key: T -> K, k: K)
    ensures k in KeySet(s, p, key) <==> exists i :: 0 <= i < |s| && p(s[i]) && key(s[i]) == k
    decreases |s|
  {
    if s != [] {
      var front := s[..|s| - 1];
      KeySetMembers(front, p, key, k);
      if k in KeySet(front, p, key) {
        var i :| 0 <= i < |front| && p(front[i]) && key(front[i]) == k;
        assert s[i] == front[i];
      }
      if exists i :: 0 <= i < |s| && p(s[i]) && key(s[i]) == k {
        var i :| 0 <= i < |s| && p(s[i]) && key(s[i]) == k;
        if i < |front| {
          assert front[i] == s[i];
        }
      }
    }
  }

  /**
   * When no two elements share a key, the number of elements that pass a
   * filter is the number of their keys.
   */
  lemma {:induction false} FilterKeyCount<T, K>(s: seq<T>, p: T -> bool, key: T -> K)
    requires forall i, j :: 0 <= i < j < |s| ==> key(s[i]) != key(s[j])
    ensures |Filter(s, p)| == |KeySet(s, p, key)|
    decreases |s|
  {
    if s != [] {
      var front := s[..|s| - 1];
      var last := s[|s| - 1];
      assert forall i :: 0 <= i < |front| ==> front[i] == s[i];
      FilterKeyCount(front, p, key);
      KeySetMembers(front, p, key, key(last));
    }
  }

  /** A duplicate-free sequence drawn from one whose keys are distinct has distinct keys too. */
  lemma KeysDistinctSub<T, K>(s: seq<T>, r: seq<T>, key: T -> K)
    requires forall i, j :: 0 <= i < j < |s| ==> key(s[i]) != key(s[j])
    requires NoDup(r) && forall x :: x in r ==> x in s
    ensures forall i, j :: 0 <= i < j < |r| ==> key(r[i]) != key(r[j])
  {
    forall i, j | 0 <= i < j < |r|
      ensures key(r[i]) != key(r[j])
    {
      assert r[i] in r && r[j] in r;
      var a :| 0 <= a < |s| && s[a] == r[i];
      var b :| 0 <= b < |s| && s[b] == r[j];
      assert a != b;
    }
  }

  /** A sequence is its part before `k`, its element at `k` and its part after. */
  lemma SplitAt<T>(b: seq<T>, k: int)
    requires 0 <= k < |b|
    ensures b == (b[..k] + [b[k]]) + b[k + 1..]
  {
  }

  /** Taking out the element at `k` takes one copy of it out of the multiset. */
  lemma MultisetRemoveAt<T>(b: seq<T>, k: int)
    requires 0 <= k < |b|
    ensures multiset(b[..k] + b[k + 1..]) == multiset(b) - multiset{b[k]}
  {
    assert b == b[..k] + [b[k]] + b[k + 1..];
  }

  lemma FilterSingle<T>(x: T, p: T -> bool)
    ensures Filter([x], p) == if p(x) then [x] else []
  {
    assert [x][..0] == [];
  }

  lemma FilterAround<T>(l: seq<T>, x: T, r: seq<T>, p: T -> bool)
    ensures Filter((l + [x]) + r, p) == Filter(l, p) + Filter([x], p) + Filter(r, p)
    ensures Filter(l + r, p) == Filter(l, p) + Filter(r, p)
  {
    FilterAppend(l + [x], r, p);
    FilterAppend(l, [x], p);
    FilterAppend(l, r, p);
  }

  /** The filter of `b` is the filter without the element at `k`, plus that element when it passes. */
  lemma FilterRemoveAt<T>(b: seq<T>, k: int, p: T -> bool)
    requires 0 <= k < |b|
    ensures multiset(Filter(b, p))
         == multiset(Filter(b[..k] + b[k + 1..], p)) + (if p(b[k]) then multiset{b[k]} else multiset{})
  {
    var l, x, r := b[..k], b[k], b[k + 1..];
    SplitAt(b, k);
    FilterAround(l, x, r, p);
    FilterSingle(x, p);
    var fl, fx, fr := Filter(l, p), Filter([x], p), Filter(r, p);
    assert multiset(fl + fx + fr) == multiset(fl) + multiset(fx) + multiset(fr);
    assert multiset(fl + fr) == multiset(fl) + multiset(fr);
  }

  /** Reordering a sequence does not change which elements, and how many, pass a filter. */
  lemma {:induction false} FilterPermutation<T>(a: seq<T>, b: seq<T>, p: T -> bool)
    requires multiset(a) == multiset(b)
    ensures multiset(Filter(a, p)) == multiset(Filter(b, p))
    ensures |Filter(a, p)| == |Filter(b, p)|
    decreases |a|
  {
    if a == [] {
      assert |b| == |multiset(b)| == 0;
    } else {
      var x := a[|a| - 1];
      var a' := a[..|a| - 1];
      assert a == a' + [x];
      assert x in multiset(b);
      var k :| 0 <= k < |b| && b[k] == x;
      MultisetRemoveAt(b, k);
      MultisetRemoveAt(a, |a| - 1);
      FilterPermutation(a', b[..k] + b[k + 1..], p);
      FilterRemoveAt(b, k, p);
      FilterRemoveAt(a, |a| - 1, p);
      assert a[..|a| - 1] + a[|a|..] == a';
    }
  }

  /** A property every element has survives reordering. */
  lemma AllPermutation<T>(a: seq<T>, b: seq<T>, p: T -> bool)
    requires multiset(a) == multiset(b)
    requires forall i :: 0 <= i < |a| ==> p(a[i])
    ensures forall i :: 0 <= i < |b| ==> p(b[i])
  {
    forall i | 0 <= i < |b|
      ensures p(b[i])
    {
      assert b[i] in multiset(a);
      var j :| 0 <= j < |a| && a[j] == b[i];
    }
  }

  /** Every chosen value has a property when every value `f` gives has it. */
  lemma {:induction false} ChooseAll<A, B>(s: seq<A>, f: A -> Option<B>, p: B -> bool)
    requires forall x :: f(x).Some? ==> p(f(x).value)
    ensures forall k :: 0 <= k < |Choose(s, f)| ==> p(Choose(s, f)[k])
  {
    ChooseMembers(s, f);
    forall k | 0 <= k < |Choose(s, f)|
      ensures p(Choose(s, f)[k])
    {
      var i :| 0 <= i < |s| && f(s[i]) == Some(Choose(s, f)[k]);
    }
  }

  /** The keys of the elements whose key is listed are the listed keys some element has. */
  lemma KeySetOfListed<A, K>(all: seq<A>, key: A -> K, ids: seq<K>, p: A -> bool)
    requires forall x :: p(x) == (key(x) in ids)
    ensures KeySet(all, p, key) == set k | k in ids && exists i :: 0 <= i < |all| && key(all[i]) == k
  {
    var held := set k | k in ids && exists i :: 0 <= i < |all| && key(all[i]) == k;
    forall k: K
      ensures k in KeySet(all, p, key) <==> k in held
    {
      KeySetMembers(all, p, key, k);
    }
  }

  /**
   * Choosing over duplicate-free keys, with a value exactly for the keys some
   * element of `all` has, and filtering `all` down to the elements whose key
   * is not among them, together account for every element of `all` once
   * when no two elements share a key.
   */
  lemma ChooseFilterPartition<A, K, B>(all: seq<A>, key: A -> K, ids: seq<K>, f: K -> Option<B>, p: A -> bool, q: A -> bool)
    requires NoDup(ids)
    requires forall i, j :: 0 <= i < j < |all| ==> key(all[i]) != key(all[j])
    requires forall k :: f(k).Some? <==> exists i :: 0 <= i < |all| && key(all[i]) == k
    requires forall x :: p(x) == (key(x) in ids)
    requires forall x :: q(x) == !p(x)
    ensures |Choose(ids, f)| + |Filter(all, q)| == |all|
  {
    ChooseCount(ids, f);
    FilterSplit(all, p, q);
    FilterKeyCount(all, p, key);
    KeySetOfListed(all, key, ids, p);
    assert (set x | x in ids && f(x).Some?) == set k | k in ids && exists i :: 0 <= i < |all| && key(all[i]) == k;
  }

  /** Distinct keys stay distinct when a sequence is reordered. */
  lemma KeysDistinctPermutation<T, K>(s: seq<T>, r: seq<T>, key: T -> K)
    requires forall i, j :: 0 <= i < j < |s| ==> key(s[i]) != key(s[j])
    requires multiset(r) == multiset(s)
    ensures forall i, j :: 0 <= i < j < |r| ==> key(r[i]) != key(r[j])
  {
    assert NoDup(s);
    NoDupPermutation(s, r);
    forall x | x in r
      ensures x in s
    {
      assert x in multiset(s);
    }
    KeysDistinctSub(s, r, key);
  }

  /** Distinct keys stay distinct when a sequence is filtered. */
  lemma KeysDistinctFilter<T, K>(s: seq<T>, p: T -> bool, key: T -> K)
    requires forall i, j :: 0 <= i < j < |s| ==> key(s[i]) != key(s[j])
    ensures forall i, j :: 0 <= i < j < |Filter(s, p)| ==> key(Filter(s, p)[i]) != key(Filter(s, p)[j])
  {
    assert NoDup(s);
    FilterNoDup(s, p);
    KeysDistinctSub(s, Filter(s, p), key);
  }

  /** An element of a sequence is still there, at some position, after reordering. */
  lemma InPermutation<T>(a: seq<T>, b: seq<T>, x: T)
    requires multiset(a) == multiset(b) && x in a
    ensures exists k :: 0 <= k < |b| && b[k] == x
  {
    assert x in multiset(b);
  }
}

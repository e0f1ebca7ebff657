/** Python's `sorted`/`list.sort` with a key: a stable sort, here by an
    integer pair compared lexicographically (a descending sort is the
    ascending sort of the negated key, which keeps ties in input order as
    `reverse=True` does); and `sorted(set(xs))` on integers. */
module Sorting {
  import opened Wrappers

  type Rank = (int, int)

  predicate RankLe(a: Rank, b: Rank) {
    a.0 < b.0 || (a.0 == b.0 && a.1 <= b.1)
  }

  predicate RankLt(a: Rank, b: Rank) {
    !RankLe(b, a)
  }

  predicate SortedBy<T>(s: seq<T>, rank: T -> Rank) {
    forall i, j :: 0 <= i < j < |s| ==> RankLe(rank(s[i]), rank(s[j]))
  }

  /** The elements of `s` whose rank is `k`, in order. */
  function WithRank<T>(s: seq<T>, rank: T -> Rank, k: Rank): (r: seq<T>)
    ensures |r| <= |s|
  {
    if |s| == 0 then []
    else (if rank(s[0]) == k then [s[0]] else []) + WithRank(s[1..], rank, k)
  }

  /** Insert `x` before the first element ranked strictly above it. */
  function Insert<T>(x: T, s: seq<T>, rank: T -> Rank): (r: seq<T>)
    ensures |r| == |s| + 1
    ensures multiset(r) == multiset(s) + multiset{x}
  {
    if |s| == 0 then [x]
    else if RankLt(rank(x), rank(s[0])) then [x] + s
    else
      assert s == [s[0]] + s[1..];
      [s[0]] + Insert(x, s[1..], rank)
  }

  /** The stable sort: each element in turn inserted after its equals. */
  function SortBy<T>(xs: seq<T>, rank: T -> Rank): (r: seq<T>)
    ensures |r| == |xs|
    ensures multiset(r) == multiset(xs)
  {
    if |xs| == 0 then []
    else
      assert xs == xs[..|xs| - 1] + [xs[|xs| - 1]];
      Insert(xs[|xs| - 1], SortBy(xs[..|xs| - 1], rank), rank)
  }

  /** The sort orders by rank, loses and gains nothing, and keeps the
      elements of each rank in their input order; these three facts
      determine its result. */
  lemma {:induction false} SortByCorrect<T>(xs: seq<T>, rank: T -> Rank)
    ensures SortedBy(SortBy(xs, rank), rank)
    ensures multiset(SortBy(xs, rank)) == multiset(xs)
    ensures forall k :: WithRank(SortBy(xs, rank), rank, k) == WithRank(xs, rank, k)
    decreases |xs|
  {
    if |xs| > 0 {
      var init, x := xs[..|xs| - 1], xs[|xs| - 1];
      SortByCorrect(init, rank);
      var s := SortBy(init, rank);
      assert SortBy(xs, rank) == Insert(x, s, rank);
      InsertSorted(x, s, rank);
      forall k
        ensures WithRank(SortBy(xs, rank), rank, k) == WithRank(xs, rank, k)
      {
        SortStepStable(xs, rank, k);
      }
    }
  }

  lemma SortStepStable<T>(xs: seq<T>, rank: T -> Rank, k: Rank)
    requires |xs| > 0
    requires SortedBy(SortBy(xs[..|xs| - 1], rank), rank)
    requires WithRank(SortBy(xs[..|xs| - 1], rank), rank, k) == WithRank(xs[..|xs| - 1], rank, k)
    ensures WithRank(SortBy(xs, rank), rank, k) == WithRank(xs, rank, k)
  {
    var init, x := xs[..|xs| - 1], xs[|xs| - 1];
    var s := SortBy(init, rank);
    assert SortBy(xs, rank) == Insert(x, s, rank);
    InsertStable(x, s, rank, k);
    assert xs == init + [x];
    WithRankAppend(init, [x], rank, k);
    assert WithRank([x], rank, k) == (if rank(x) == k then [x] else []) by {
      assert [x][1..] == [];
    }
  }

  lemma {:induction false} InsertSorted<T>(x: T, s: seq<T>, rank: T -> Rank)
    requires SortedBy(s, rank)
    ensures SortedBy(Insert(x, s, rank), rank)
    ensures |s| > 0 ==> Insert(x, s, rank)[0] == x || Insert(x, s, rank)[0] == s[0]
    decreases |s|
  {
    if |s| > 0 && !RankLt(rank(x), rank(s[0])) {
      InsertSorted(x, s[1..], rank);
      var r := Insert(x, s, rank);
      assert r == [s[0]] + Insert(x, s[1..], rank);
      forall j | 0 < j < |r|
        ensures RankLe(rank(r[0]), rank(r[j]))
      {
        var t := Insert(x, s[1..], rank);
        assert r[j] in multiset(t);
        assert r[j] == x || r[j] in s[1..];
      }
    }
  }

  /** Inserting appends `x` to the elements of its rank and leaves the
      other ranks alone. */
  lemma {:induction false} InsertStable<T>(x: T, s: seq<T>, rank: T -> Rank, k: Rank)
    requires SortedBy(s, rank)
    ensures WithRank(Insert(x, s, rank), rank, k) == WithRank(s, rank, k) + (if rank(x) == k then [x] else [])
    decreases |s|
  {
    if |s| == 0 {
    } else if RankLt(rank(x), rank(s[0])) {
      if rank(x) == k {
        AboveHasNoRank(s, rank, k);
      }
      assert Insert(x, s, rank) == [x] + s;
      assert ([x] + s)[1..] == s;
    } else {
      InsertStable(x, s[1..], rank, k);
      var t := Insert(x, s[1..], rank);
      assert Insert(x, s, rank) == [s[0]] + t;
      assert ([s[0]] + t)[1..] == t;
      var a := if rank(s[0]) == k then [s[0]] else [];
      ConcatAssoc(a, WithRank(s[1..], rank, k), if rank(x) == k then [x] else []);
    }
  }

  /** In a sorted list whose first element ranks above `k`, nothing has rank `k`. */
  lemma {:induction false} AboveHasNoRank<T>(s: seq<T>, rank: T -> Rank, k: Rank)
    requires SortedBy(s, rank) && |s| > 0 && RankLt(k, rank(s[0]))
    ensures WithRank(s, rank, k) == []
    decreases |s|
  {
    if |s| > 1 {
      assert RankLe(rank(s[0]), rank(s[1]));
      AboveHasNoRank(s[1..], rank, k);
    }
  }

  lemma {:induction false} WithRankAppend<T>(a: seq<T>, b: seq<T>, rank: T -> Rank, k: Rank)
    ensures WithRank(a + b, rank, k) == WithRank(a, rank, k) + WithRank(b, rank, k)
    decreases |a|
  {
    if |a| == 0 {
      assert a + b == b;
    } else {
      assert (a + b)[1..] == a[1..] + b;
      WithRankAppend(a[1..], b, rank, k);
      var h := if rank(a[0]) == k then [a[0]] else [];
      ConcatAssoc(h, WithRank(a[1..], rank, k), WithRank(b, rank, k));
    }
  }

  // ---------------------------------------------------------------------
  // sorted(set(xs)) on integers

  /** The set of a list's elements, Python's `set(xs)`. */
  function Elems(s: seq<int>): set<int> {
    set x | x in s
  }

  lemma ElemsCons(x: int, t: seq<int>)
    ensures Elems([x] + t) == {x} + Elems(t)
  {
    assert forall v :: v in [x] + t <==> v == x || v in t;
  }

  predicate StrictlyIncreasing(s: seq<int>) {
    forall i, j :: 0 <= i < j < |s| ==> s[i] < s[j]
  }

  /** Insert `x` into a strictly increasing list unless it is there already. */
  function InsertUnique(x: int, s: seq<int>): (r: seq<int>)
    requires StrictlyIncreasing(s)
    ensures StrictlyIncreasing(r)
    ensures Elems(r) == Elems(s) + {x}
    ensures |s| > 0 && |r| > 0 ==> r[0] == s[0] || r[0] == x
  {
    if |s| == 0 then [x]
    else if x < s[0] then ElemsCons(x, s); [x] + s
    else if x == s[0] then assert x in Elems(s); s
    else
      var t := InsertUnique(x, s[1..]);
      InsertUniqueStep(x, s, t);
      [s[0]] + t
  }

  lemma InsertUniqueStep(x: int, s: seq<int>, t: seq<int>)
    requires StrictlyIncreasing(s) && |s| > 0 && s[0] < x
    requires StrictlyIncreasing(t) && Elems(t) == Elems(s[1..]) + {x}
    ensures StrictlyIncreasing([s[0]] + t)
    ensures Elems([s[0]] + t) == Elems(s) + {x}
  {
    forall i | 0 <= i < |t|
      ensures s[0] < t[i]
    {
      assert t[i] in Elems(t);
    }
    ElemsCons(s[0], t);
    ElemsCons(s[0], s[1..]);
    assert s == [s[0]] + s[1..];
  }

  /** Python's `sorted(set(xs))`. */
  function SortedSet(xs: seq<int>): (r: seq<int>)
    ensures StrictlyIncreasing(r)
    ensures Elems(r) == Elems(xs)
  {
    if |xs| == 0 then []
    else
      assert xs == xs[..|xs| - 1] + [xs[|xs| - 1]];
      InsertUnique(xs[|xs| - 1], SortedSet(xs[..|xs| - 1]))
  }

  /** A strictly increasing list is determined by its elements, so
      `SortedSet` is the only sorted duplicate-free listing of `xs`. */
  lemma {:induction false} SortedSetUnique(xs: seq<int>, s: seq<int>)
    requires StrictlyIncreasing(s)
    requires Elems(s) == Elems(xs)
    ensures s == SortedSet(xs)
  {
    IncreasingDeterminedBySet(s, SortedSet(xs));
  }

  lemma {:induction false} IncreasingDeterminedBySet(a: seq<int>, b: seq<int>)
    requires StrictlyIncreasing(a) && StrictlyIncreasing(b)
    requires Elems(a) == Elems(b)
    ensures a == b
    decreases |a|
  {
    assert |a| > 0 ==> a[0] in Elems(a);
    assert |b| > 0 ==> b[0] in Elems(b);
    if |a| > 0 && |b| > 0 {
      assert a[0] in Elems(a) && b[0] in Elems(b);
      assert a[0] in b;
      assert b[0] in a;
      assert b[0] <= a[0] by {
        var j :| 0 <= j < |b| && b[j] == a[0];
      }
      assert a[0] <= b[0] by {
        var j :| 0 <= j < |a| && a[j] == b[0];
      }
      TailElems(a, b);
      TailElems(b, a);
      IncreasingDeterminedBySet(a[1..], b[1..]);
      assert a == [a[0]] + a[1..];
      assert b == [b[0]] + b[1..];
    }
  }

  /** With equal heads and equal element sets, every later element of `a`
      is a later element of `b`. */
  lemma TailElems(a: seq<int>, b: seq<int>)
    requires StrictlyIncreasing(a) && StrictlyIncreasing(b)
    requires |a| > 0 && |b| > 0 && a[0] == b[0] && Elems(a) == Elems(b)
    ensures Elems(a[1..]) <= Elems(b[1..])
  {
    forall v | v in Elems(a[1..])
      ensures v in Elems(b[1..])
    {
      var i :| 0 <= i < |a[1..]| && a[1..][i] == v;
      assert v == a[i + 1] && a[0] < v;
      assert v in Elems(a);
      var j :| 0 <= j < |b| && b[j] == v;
      assert j != 0;
      assert b[1..][j - 1] == v;
    }
  }
}

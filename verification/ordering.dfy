/**
 * Python's `list.sort(key=..., reverse=True)` as the engine uses it: a stable
 * sort into non-increasing key order, where equal keys keep their input order.
 * Keys are pairs compared lexicographically, the `(height, fps)` tuple of the
 * video list; the audio list's single `abr` key is a pair with a constant second half.
 */
module Ordering {

  datatype Rank = Rank(major: int, minor: int)

  /** Python's tuple `<=` on two-element integer tuples. */
  predicate RankLe(a: Rank, b: Rank) {
    a.major < b.major || (a.major == b.major && a.minor <= b.minor)
  }

  /** Non-increasing in rank: every element ranks at least as high as every later one. */
  predicate SortedDesc<T>(s: seq<T>, rank: T -> Rank) {
    forall i, j :: 0 <= i < j < |s| ==> RankLe(rank(s[j]), rank(s[i]))
  }

  /**
   * Places `x` in a non-increasing sequence before the first element that does
   * not outrank it, so `x` precedes the elements of equal rank.
   */
  function Insert<T>(x: T, s: seq<T>, rank: T -> Rank): (r: seq<T>)
    ensures multiset(r) == multiset(s) + multiset{x}
    ensures |r| == |s| + 1
  {
    if s == [] then [x]
    else if RankLe(rank(s[0]), rank(x)) then [x] + s
    else
      assert s == [s[0]] + s[1..];
      [s[0]] + Insert(x, s[1..], rank)
  }

  /** The stable descending sort. */
  function SortDesc<T>(s: seq<T>, rank: T -> Rank): (r: seq<T>)
    ensures multiset(r) == multiset(s)
    ensures |r| == |s|
  {
    if s == [] then []
    else
      assert s == [s[0]] + s[1..];
      Insert(s[0], SortDesc(s[1..], rank), rank)
  }

  lemma RankLeTotal(a: Rank, b: Rank)
    ensures RankLe(a, b) || RankLe(b, a)
  {
  }

  lemma {:induction false} InsertSorted<T>(x: T, s: seq<T>, rank: T -> Rank)
    requires SortedDesc(s, rank)
    ensures SortedDesc(Insert(x, s, rank), rank)
    decreases |s|
  {
    if s != [] && !RankLe(rank(s[0]), rank(x)) {
      InsertSorted(x, s[1..], rank);
      InsertBelowHead(x, s, rank);
      ConsSorted(s[0], Insert(x, s[1..], rank), rank);
    }
  }

  /** A head that ranks at least as high as every element of a sorted tail keeps it sorted. */
  lemma ConsSorted<T>(h: T, t: seq<T>, rank: T -> Rank)
    requires SortedDesc(t, rank)
    requires forall y :: y in t ==> RankLe(rank(y), rank(h))
    ensures SortedDesc([h] + t, rank)
  {
    var r := [h] + t;
    forall i, j | 0 <= i < j < |r| ensures RankLe(rank(r[j]), rank(r[i])) {
      assert r[j] == t[j - 1];
      if i > 0 {
        assert r[i] == t[i - 1];
      }
    }
  }

  /**
   * When `x` ranks below the head of a sorted `s`, everything inserted behind
   * the head ranks at most as high as the head.
   */
  lemma InsertBelowHead<T>(x: T, s: seq<T>, rank: T -> Rank)
    requires SortedDesc(s, rank) && s != [] && !RankLe(rank(s[0]), rank(x))
    ensures forall y :: y in Insert(x, s[1..], rank) ==> RankLe(rank(y), rank(s[0]))
  {
    var t := Insert(x, s[1..], rank);
    forall y | y in t ensures RankLe(rank(y), rank(s[0])) {
      assert multiset(t)[y] > 0;
      if y == x {
        RankLeTotal(rank(s[0]), rank(x));
      } else {
        assert y in multiset(s[1..]);
        var m :| 0 <= m < |s[1..]| && s[1..][m] == y;
        assert s[m + 1] == y;
      }
    }
  }

  /** The sort produces a non-increasing sequence. */
  lemma {:induction false} SortDescSorted<T>(s: seq<T>, rank: T -> Rank)
    ensures SortedDesc(SortDesc(s, rank), rank)
    decreases |s|
  {
    if s != [] {
      SortDescSorted(s[1..], rank);
      InsertSorted(s[0], SortDesc(s[1..], rank), rank);
    }
  }

  /** The elements of `s` whose rank is exactly `k`, in their order in `s`. */
  function WithRank<T>(s: seq<T>, rank: T -> Rank, k: Rank): (r: seq<T>)
    ensures |r| <= |s|
    ensures forall i :: 0 <= i < |r| ==> rank(r[i]) == k
  {
    if s == [] then []
    else (if rank(s[0]) == k then [s[0]] else []) + WithRank(s[1..], rank, k)
  }

  lemma WithRankCons<T>(y: T, t: seq<T>, rank: T -> Rank, k: Rank)
    ensures WithRank([y] + t, rank, k) == (if rank(y) == k then [y] else []) + WithRank(t, rank, k)
  {
    assert ([y] + t)[0] == y && ([y] + t)[1..] == t;
  }

  lemma {:induction false} WithRankInsert<T>(x: T, s: seq<T>, rank: T -> Rank, k: Rank)
    ensures rank(x) == k ==> WithRank(Insert(x, s, rank), rank, k) == [x] + WithRank(s, rank, k)
    ensures rank(x) != k ==> WithRank(Insert(x, s, rank), rank, k) == WithRank(s, rank, k)
    decreases |s|
  {
    var px := if rank(x) == k then [x] else [];
    if s == [] {
    } else if RankLe(rank(s[0]), rank(x)) {
      WithRankCons(x, s, rank, k);
    } else {
      var t := Insert(x, s[1..], rank);
      var p0 := if rank(s[0]) == k then [s[0]] else [];
      assert Insert(x, s, rank) == [s[0]] + t;
      WithRankCons(s[0], t, rank, k);
      WithRankInsert(x, s[1..], rank, k);
      assert WithRank(t, rank, k) == px + WithRank(s[1..], rank, k);
      assert p0 == [] || px == [];
      SwapEmpty(p0, px, WithRank(s[1..], rank, k));
    }
  }

  /** Two pieces one of which is empty can be swapped. */
  lemma SwapEmpty<T>(a: seq<T>, b: seq<T>, w: seq<T>)
    requires a == [] || b == []
    ensures a + (b + w) == b + (a + w)
  {
    if a == [] {
      assert a + (b + w) == b + w;
      assert a + w == w;
    } else {
      assert b + w == w;
      assert b + (a + w) == a + w;
    }
  }

  /**
   * Stability: the elements of any one rank appear in the sorted sequence in
   * exactly the order they had in the input.
   */
  lemma {:induction false} SortDescStable<T>(s: seq<T>, rank: T -> Rank, k: Rank)
    ensures WithRank(SortDesc(s, rank), rank, k) == WithRank(s, rank, k)
    decreases |s|
  {
    if s != [] {
      SortDescStable(s[1..], rank, k);
      WithRankInsert(s[0], SortDesc(s[1..], rank), rank, k);
    }
  }
}

/**
 * The duplicate-removal loops of `extract`: walk the sorted list, keep an
 * element when its key string has not been seen yet and record the key.
 */
module Deduplication {
  import opened Optional
  import opened Ordering

  /** The set of keys of the elements of `s`. */
  function Keys<T>(s: seq<T>, keyOf: T -> string): set<string> {
    if s == [] then {} else {keyOf(s[0])} + Keys(s[1..], keyOf)
  }

  lemma {:induction false} KeysMember<T>(s: seq<T>, keyOf: T -> string, key: string)
    ensures key in Keys(s, keyOf) <==> exists i :: 0 <= i < |s| && keyOf(s[i]) == key
    decreases |s|
  {
    if s != [] {
      KeysMember(s[1..], keyOf, key);
      if key in Keys(s[1..], keyOf) {
        var i :| 0 <= i < |s[1..]| && keyOf(s[1..][i]) == key;
        assert s[i + 1] == s[1..][i];
      }
      if exists i :: 0 <= i < |s| && keyOf(s[i]) == key {
        var i :| 0 <= i < |s| && keyOf(s[i]) == key;
        if i > 0 {
          assert s[1..][i - 1] == s[i];
        }
      }
    }
  }

  /** Sorting does not change the set of keys. */
  lemma SortedKeys<T>(s: seq<T>, keyOf: T -> string, rank: T -> Rank)
    ensures Keys(SortDesc(s, rank), keyOf) == Keys(s, keyOf)
  {
    var t := SortDesc(s, rank);
    forall key ensures key in Keys(t, keyOf) <==> key in Keys(s, keyOf) {
      KeysMember(t, keyOf, key);
      KeysMember(s, keyOf, key);
      if key in Keys(t, keyOf) {
        var i :| 0 <= i < |t| && keyOf(t[i]) == key;
        assert t[i] in multiset(s);
        var j :| 0 <= j < |s| && s[j] == t[i];
      }
      if key in Keys(s, keyOf) {
        var j :| 0 <= j < |s| && keyOf(s[j]) == key;
        assert s[j] in multiset(t);
        var i :| 0 <= i < |t| && t[i] == s[j];
      }
    }
  }

  /**
   * The reference result of a walk that starts with the keys in `seen`
   * already recorded: the elements whose key is new, in order.
   */
  function Unique<T>(s: seq<T>, keyOf: T -> string, seen: set<string>): (r: seq<T>)
    ensures |r| <= |s|
    decreases |s|
  {
    if s == [] then []
    else if keyOf(s[0]) in seen then Unique(s[1..], keyOf, seen)
    else [s[0]] + Unique(s[1..], keyOf, seen + {keyOf(s[0])})
  }

  /**
   * The loop of `extract`: `seen` grows by each new key and `unique` by the
   * element that brought it.
   */
  method DedupByKey<T>(s: seq<T>, keyOf: T -> string) returns (unique: seq<T>)
    ensures unique == Unique(s, keyOf, {})
  {
    unique := [];
    var seen: set<string> := {};
    for i := 0 to |s|
      invariant unique + Unique(s[i..], keyOf, seen) == Unique(s, keyOf, {})
    {
      assert s[i..][0] == s[i] && s[i..][1..] == s[i + 1..];
      var key := keyOf(s[i]);
      if key !in seen {
        seen := seen + {key};
        unique := unique + [s[i]];
      }
    }
    assert s[|s|..] == [];
  }

  /** No two kept elements share a key, and no kept key was already seen. */
  lemma {:induction false} UniqueDistinct<T>(s: seq<T>, keyOf: T -> string, seen: set<string>)
    ensures forall i :: 0 <= i < |Unique(s, keyOf, seen)| ==> keyOf(Unique(s, keyOf, seen)[i]) !in seen
    ensures forall i, j :: 0 <= i < j < |Unique(s, keyOf, seen)| ==>
              keyOf(Unique(s, keyOf, seen)[i]) != keyOf(Unique(s, keyOf, seen)[j])
    decreases |s|
  {
    if s != [] {
      if keyOf(s[0]) in seen {
        assert Unique(s, keyOf, seen) == Unique(s[1..], keyOf, seen);
        UniqueDistinct(s[1..], keyOf, seen);
      } else {
        var seen' := seen + {keyOf(s[0])};
        UniqueDistinct(s[1..], keyOf, seen');
        var t := Unique(s[1..], keyOf, seen');
        var r := [s[0]] + t;
        assert Unique(s, keyOf, seen) == r;
        forall i | 0 <= i < |r| ensures keyOf(r[i]) !in seen {
          if i > 0 {
            assert r[i] == t[i - 1];
            assert keyOf(t[i - 1]) !in seen';
          }
        }
        forall i, j | 0 <= i < j < |r| ensures keyOf(r[i]) != keyOf(r[j]) {
          assert r[j] == t[j - 1];
          assert keyOf(t[j - 1]) !in seen';
          if i > 0 { assert r[i] == t[i - 1]; }
        }
      }
    }
  }

  /** Every kept element is an element of the input. */
  lemma {:induction false} UniqueFrom<T>(s: seq<T>, keyOf: T -> string, seen: set<string>)
    ensures forall x :: x in Unique(s, keyOf, seen) ==> x in s
    decreases |s|
  {
    if s != [] {
      var seen' := if keyOf(s[0]) in seen then seen else seen + {keyOf(s[0])};
      UniqueFrom(s[1..], keyOf, seen');
      forall x | x in Unique(s[1..], keyOf, seen') ensures x in s {
        var m :| 0 <= m < |s[1..]| && s[1..][m] == x;
        assert s[m + 1] == x;
      }
    }
  }

  /** The kept keys are exactly the input's keys that were not seen before. */
  lemma {:induction false} UniqueKeys<T>(s: seq<T>, keyOf: T -> string, seen: set<string>)
    ensures Keys(Unique(s, keyOf, seen), keyOf) == Keys(s, keyOf) - seen
    decreases |s|
  {
    if s != [] {
      if keyOf(s[0]) in seen {
        UniqueKeys(s[1..], keyOf, seen);
      } else {
        var seen' := seen + {keyOf(s[0])};
        UniqueKeys(s[1..], keyOf, seen');
        var t := Unique(s[1..], keyOf, seen');
        assert ([s[0]] + t)[0] == s[0] && ([s[0]] + t)[1..] == t;
      }
    }
  }

  /** Dropping elements keeps a non-increasing sequence non-increasing. */
  lemma {:induction false} UniqueSorted<T>(s: seq<T>, keyOf: T -> string, seen: set<string>, rank: T -> Rank)
    requires SortedDesc(s, rank)
    ensures SortedDesc(Unique(s, keyOf, seen), rank)
    decreases |s|
  {
    if s != [] {
      var seen' := if keyOf(s[0]) in seen then seen else seen + {keyOf(s[0])};
      assert SortedDesc(s[1..], rank) by {
        forall i, j | 0 <= i < j < |s[1..]| ensures RankLe(rank(s[1..][j]), rank(s[1..][i])) {
          assert s[1..][j] == s[j + 1] && s[1..][i] == s[i + 1];
        }
      }
      UniqueSorted(s[1..], keyOf, seen', rank);
      if keyOf(s[0]) !in seen {
        var t := Unique(s[1..], keyOf, seen');
        UniqueFrom(s[1..], keyOf, seen');
        var r := [s[0]] + t;
        forall i, j | 0 <= i < j < |r| ensures RankLe(rank(r[j]), rank(r[i])) {
          assert r[j] == t[j - 1] && t[j - 1] in t;
          var m :| 0 <= m < |s[1..]| && s[1..][m] == t[j - 1];
          assert s[m + 1] == r[j];
          if i > 0 { assert r[i] == t[i - 1]; }
        }
      }
    }
  }

  /** The first element of `s` with the given key, if any. */
  function FirstWithKey<T>(s: seq<T>, keyOf: T -> string, key: string): (r: Option<T>)
    ensures r.Some? ==> keyOf(r.value) == key && r.value in s
    ensures r.None? ==> forall i :: 0 <= i < |s| ==> keyOf(s[i]) != key
    decreases |s|
  {
    if s == [] then None
    else if keyOf(s[0]) == key then Some(s[0])
    else
      var r := FirstWithKey(s[1..], keyOf, key);
      assert r.Some? ==> r.value in s by {
        if r.Some? {
          var m :| 0 <= m < |s[1..]| && s[1..][m] == r.value;
          assert s[m + 1] == r.value;
        }
      }
      assert r.None? ==> forall i :: 1 <= i < |s| ==> keyOf(s[i]) != key by {
        if r.None? {
          forall i | 1 <= i < |s| ensures keyOf(s[i]) != key {
            assert s[1..][i - 1] == s[i];
          }
        }
      }
      r
  }

  /**
   * Among elements that share a key, the one kept is the first of them in the
   * input.
   */
  lemma {:induction false} UniqueKeepsFirst<T>(s: seq<T>, keyOf: T -> string, seen: set<string>)
    ensures forall x :: x in Unique(s, keyOf, seen) ==> FirstWithKey(s, keyOf, keyOf(x)) == Some(x)
    decreases |s|
  {
    if s != [] {
      var seen' := if keyOf(s[0]) in seen then seen else seen + {keyOf(s[0])};
      UniqueKeepsFirst(s[1..], keyOf, seen');
      UniqueDistinct(s, keyOf, seen);
      var r := Unique(s, keyOf, seen);
      forall x | x in r ensures FirstWithKey(s, keyOf, keyOf(x)) == Some(x) {
        var j :| 0 <= j < |r| && r[j] == x;
        if keyOf(s[0]) !in seen {
          if j > 0 {
            assert r[0] == s[0];
            assert keyOf(r[0]) != keyOf(r[j]);
            assert r[j] in Unique(s[1..], keyOf, seen');
          }
        } else {
          UniqueDistinct(s[1..], keyOf, seen);
        }
      }
    }
  }

  lemma {:induction false} FirstWithKeyWithRank<T>(t: seq<T>, keyOf: T -> string, key: string, rank: T -> Rank, k: Rank)
    requires forall i :: 0 <= i < |t| && keyOf(t[i]) == key ==> rank(t[i]) == k
    ensures FirstWithKey(t, keyOf, key) == FirstWithKey(WithRank(t, rank, k), keyOf, key)
    decreases |t|
  {
    if t != [] {
      assert forall i :: 0 <= i < |t[1..]| ==> t[1..][i] == t[i + 1];
      FirstWithKeyWithRank(t[1..], keyOf, key, rank, k);
      assert keyOf(t[0]) == key ==> rank(t[0]) == k;
      var w := WithRank(t[1..], rank, k);
      if rank(t[0]) == k {
        assert WithRank(t, rank, k) == [t[0]] + w;
        assert ([t[0]] + w)[0] == t[0] && ([t[0]] + w)[1..] == w;
      } else {
        assert WithRank(t, rank, k) == w;
        assert keyOf(t[0]) != key;
        assert FirstWithKey(t, keyOf, key) == FirstWithKey(t[1..], keyOf, key);
      }
    }
  }

  /**
   * When equal keys imply equal ranks among the input's elements, the stable sort does not change which
   * element is the first with a given key; so the element the walk keeps after
   * the sort is the first with its key in the unsorted input.
   */
  lemma SortedFirstWithKey<T>(s: seq<T>, keyOf: T -> string, key: string, rank: T -> Rank)
    requires forall i, j :: 0 <= i < |s| && 0 <= j < |s| && keyOf(s[i]) == keyOf(s[j]) ==> rank(s[i]) == rank(s[j])
    ensures FirstWithKey(SortDesc(s, rank), keyOf, key) == FirstWithKey(s, keyOf, key)
  {
    var t := SortDesc(s, rank);
    match FirstWithKey(s, keyOf, key)
    case Some(x) =>
      var m :| 0 <= m < |s| && s[m] == x;
      forall i | 0 <= i < |s| && keyOf(s[i]) == key ensures rank(s[i]) == rank(x) {
        assert keyOf(s[i]) == keyOf(s[m]);
      }
      forall i | 0 <= i < |t| && keyOf(t[i]) == key ensures rank(t[i]) == rank(x) {
        assert t[i] in multiset(t);
        assert t[i] in s;
        var j :| 0 <= j < |s| && s[j] == t[i];
      }
      FirstWithKeyWithRank(s, keyOf, key, rank, rank(x));
      FirstWithKeyWithRank(t, keyOf, key, rank, rank(x));
      SortDescStable(s, rank, rank(x));
    case None =>
      forall i | 0 <= i < |t| ensures keyOf(t[i]) != key {
        assert t[i] in multiset(t);
        assert t[i] in s;
      }
  }
}

/** Sequences built from finite sets of ids: the deterministic enumeration used for queries
    without an ORDER BY, and the ordering used for queries with one. */
module Collections {

  /** No element occurs twice. */
  ghost predicate Distinct<T>(s: seq<T>)
  {
    forall i, j :: 0 <= i < j < |s| ==> s[i] != s[j]
  }

  /** `s` is ordered by ascending `key`. */
  ghost predicate SortedBy<T>(s: seq<T>, key: T -> int)
  {
    forall i, j :: 0 <= i < j < |s| ==> key(s[i]) <= key(s[j])
  }

  lemma {:induction false} MinExists(s: set<nat>)
    requires s != {}
    ensures exists m :: m in s && forall x :: x in s ==> m <= x
  {
    var y :| y in s;
    MinAtMost(s, y);
  }

  /** Descending from any element reaches a least one. */
  lemma {:induction false} MinAtMost(s: set<nat>, y: nat)
    requires y in s
    ensures exists m :: m in s && forall x :: x in s ==> m <= x
    decreases y
  {
    if z :| z in s && z < y {
      MinAtMost(s, z);
    } else {
      assert forall x :: x in s ==> y <= x;
    }
  }

  /** The least element of a non-empty set. */
  function Min(s: set<nat>): (m: nat)
    requires s != {}
    ensures m in s && forall x :: x in s ==> m <= x
  {
    MinExists(s);
    var m :| m in s && forall x :: x in s ==> m <= x;
    m
  }

  /** The elements of `s`, each once, in strictly ascending order. */
  function Ascending(s: set<nat>): (r: seq<nat>)
    ensures |r| == |s|
    ensures forall x :: x in r <==> x in s
    ensures forall i, j :: 0 <= i < j < |r| ==> r[i] < r[j]
    decreases |s|
  {
    if s == {} then []
    else
      var m := Min(s);
      var rest := Ascending(s - {m});
      ConsAscending(s, m, rest);
      [m] + rest
  }

  /** Putting the least element in front of the ascending rest enumerates the whole set. */
  lemma {:induction false} ConsAscending(s: set<nat>, m: nat, rest: seq<nat>)
    requires m in s && forall x :: x in s ==> m <= x
    requires |rest| == |s - {m}| && forall x :: x in rest <==> x in s - {m}
    requires forall i, j :: 0 <= i < j < |rest| ==> rest[i] < rest[j]
    ensures |[m] + rest| == |s|
    ensures forall x :: x in [m] + rest <==> x in s
    ensures forall i, j :: 0 <= i < j < |[m] + rest| ==> ([m] + rest)[i] < ([m] + rest)[j]
  {
    var r := [m] + rest;
    forall k | 0 <= k < |rest| ensures m < rest[k] {
      assert rest[k] in rest;
    }
    assert forall x :: x in r <==> x == m || x in rest;
    forall i, j | 0 <= i < j < |r| ensures r[i] < r[j] {
      assert r[j] == rest[j - 1];
      if i > 0 {
        assert r[i] == rest[i - 1];
      }
    }
  }

  /** How many elements of `s` are smaller than `x`: the index `x` takes in ascending order. */
  ghost function Rank(s: set<nat>, x: nat): nat
  {
    |set y | y in s && y < x|
  }

  /** The element at index `i` of the ascending enumeration has rank `i`. */
  lemma {:induction false} AscendingRank(s: set<nat>, i: nat)
    requires i < |s|
    ensures Rank(s, Ascending(s)[i]) == i
    decreases |s|
  {
    var m := Min(s);
    var rest := Ascending(s - {m});
    AscendingUnfold(s, i);
    if i == 0 {
      RankOfMin(s, m);
    } else {
      var x := rest[i - 1];
      assert x in s - {m} by { assert x in rest; }
      AscendingRank(s - {m}, i - 1);
      RankAfterMin(s, m, x, i - 1);
    }
  }

  /** The ascending enumeration starts with the least element and goes on with the rest's. */
  lemma AscendingUnfold(s: set<nat>, i: nat)
    requires i < |s|
    ensures i == 0 ==> Ascending(s)[i] == Min(s)
    ensures i > 0 ==> i - 1 < |Ascending(s - {Min(s)})| && Ascending(s)[i] == Ascending(s - {Min(s)})[i - 1]
  {
    var r := Ascending(s);
    assert r == [Min(s)] + Ascending(s - {Min(s)});
  }

  /** The rank of an element other than the least grows by one when the least is put back. */
  lemma RankAfterMin(s: set<nat>, m: nat, x: nat, k: nat)
    requires m in s && forall y :: y in s ==> m <= y
    requires x in s - {m} && Rank(s - {m}, x) == k
    ensures Rank(s, x) == k + 1
  {
    RankAboveMin(s, m, x);
  }

  /** Nothing in `s` is below its least element. */
  lemma RankOfMin(s: set<nat>, m: nat)
    requires forall x :: x in s ==> m <= x
    ensures Rank(s, m) == 0
  {
    assert (set y | y in s && y < m) == {};
  }

  /** Above the least element, removing it lowers every rank by one. */
  lemma RankAboveMin(s: set<nat>, m: nat, x: nat)
    requires m in s && m < x
    ensures Rank(s, x) == Rank(s - {m}, x) + 1
  {
    var below := set y | y in s - {m} && y < x;
    var all := set y | y in s && y < x;
    assert all == below + {m};
  }

  /** Two elements of `s` with the same rank are the same element. */
  lemma RankInjective(s: set<nat>, x: nat, y: nat)
    requires x in s && y in s && Rank(s, x) == Rank(s, y)
    ensures x == y
  {
    var r := Ascending(s);
    var i :| 0 <= i < |r| && r[i] == x;
    var j :| 0 <= j < |r| && r[j] == y;
    AscendingRank(s, i);
    AscendingRank(s, j);
  }

  /** The greatest element of a non-empty set: the last of its ascending enumeration. */
  function Max(s: set<nat>): (m: nat)
    requires s != {}
    ensures m in s && forall x :: x in s ==> x <= m
  {
    var r := Ascending(s);
    var last := r[|r| - 1];
    assert forall x :: x in s ==> x <= last by {
      forall x | x in s ensures x <= last {
        var k :| 0 <= k < |r| && r[k] == x;
        if k < |r| - 1 {
          assert r[k] < r[|r| - 1];
        }
      }
    }
    last
  }

  /** Inserts `x` into the key-ordered sequence `s` before the first element with a larger-or-equal key. */
  function Insert<T>(x: T, s: seq<T>, key: T -> int): (r: seq<T>)
    requires SortedBy(s, key)
    ensures SortedBy(r, key)
    ensures multiset(r) == multiset(s) + multiset{x}
  {
    if s == [] then [x]
    else if key(x) <= key(s[0]) then [x] + s
    else
      var tail := Insert(x, s[1..], key);
      ConsSorted(x, s, tail, key);
      [s[0]] + tail
  }

  /** The head of `s`, when the new element goes after it, stays in front of the sorted rest. */
  lemma {:induction false} ConsSorted<T>(x: T, s: seq<T>, tail: seq<T>, key: T -> int)
    requires s != [] && SortedBy(s, key) && key(s[0]) < key(x)
    requires SortedBy(tail, key) && multiset(tail) == multiset(s[1..]) + multiset{x}
    ensures SortedBy([s[0]] + tail, key)
    ensures multiset([s[0]] + tail) == multiset(s) + multiset{x}
  {
    assert s == [s[0]] + s[1..];
    forall k | 0 <= k < |tail| ensures key(s[0]) <= key(tail[k]) {
      assert tail[k] in multiset(tail);
      if tail[k] != x {
        assert tail[k] in multiset(s[1..]);
        var j :| 0 <= j < |s[1..]| && s[1..][j] == tail[k];
        assert s[j + 1] == tail[k];
      }
    }
    var r := [s[0]] + tail;
    forall i, j | 0 <= i < j < |r| ensures key(r[i]) <= key(r[j]) {
      assert r[j] == tail[j - 1];
      if i > 0 {
        assert r[i] == tail[i - 1];
      }
    }
  }

  /** Insertion sort: a key-ordered permutation of `s`. */
  function SortBy<T>(s: seq<T>, key: T -> int): (r: seq<T>)
    ensures SortedBy(r, key)
    ensures multiset(r) == multiset(s)
  {
    if s == [] then []
    else
      assert s == [s[0]] + s[1..];
      Insert(s[0], SortBy(s[1..], key), key)
  }

  lemma {:induction false} DistinctOccursOnce<T>(s: seq<T>, x: T)
    requires Distinct(s)
    ensures multiset(s)[x] <= 1
  {
    if s != [] {
      assert s == [s[0]] + s[1..];
      DistinctOccursOnce(s[1..], x);
      if s[0] == x {
        assert x !in s[1..];
      }
    }
  }

  /** A permutation of a sequence without repetitions has none either. */
  lemma PermutationKeepsDistinct<T>(a: seq<T>, b: seq<T>)
    requires Distinct(a) && multiset(a) == multiset(b)
    ensures Distinct(b)
  {
    forall i, j | 0 <= i < j < |b| ensures b[i] != b[j] {
      if b[i] == b[j] {
        assert b == b[..j] + b[j..];
        assert b[i] in multiset(b[..j]);
        assert b[j] in multiset(b[j..]);
        assert multiset(b)[b[i]] == multiset(b[..j])[b[i]] + multiset(b[j..])[b[i]];
        DistinctOccursOnce(a, b[i]);
        assert false;
      }
    }
  }

  /** The members of `s`, each once, ordered by ascending `key`
      (elements with equal keys in ascending order of the element). */
  function Ordered(s: set<nat>, key: nat -> int): (r: seq<nat>)
    ensures |r| == |s|
    ensures forall x :: x in r <==> x in s
    ensures forall i :: 0 <= i < |r| ==> r[i] in s
    ensures Distinct(r)
    ensures SortedBy(r, key)
  {
    var a := Ascending(s);
    var r := SortBy(a, key);
    assert forall x :: x in r <==> x in multiset(a);
    forall i | 0 <= i < |r| ensures r[i] in s {
      assert r[i] in r;
    }
    PermutationKeepsDistinct(a, r);
    r
  }

  /** Updating a union updates its right-hand side, which takes precedence. */
  lemma UnionUpdate<K, V>(a: map<K, V>, b: map<K, V>, k: K, v: V)
    ensures (a + b)[k := v] == a + b[k := v]
  {
  }
}

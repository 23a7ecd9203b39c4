/**
 * A stable insertion sort by an integer key; it stands for `Array.prototype.sort` with a
 * comparator `(a, b) => key(a) - key(b)`.
 */
module Sorting {

  ghost predicate SortedBy<T>(s: seq<T>, key: T -> int) {
    forall i, j :: 0 <= i < j < |s| ==> key(s[i]) <= key(s[j])
  }

  /** Insert `x` into the sorted `s`, after every element whose key is not larger. */
  function Insert<T>(x: T, s: seq<T>, key: T -> int): (r: seq<T>)
    requires SortedBy(s, key)
    ensures SortedBy(r, key)
    ensures multiset(r) == multiset(s) + multiset{x}
    ensures |r| == |s| + 1
  {
    if s == [] then [x]
    else if key(x) < key(s[0]) then [x] + s
    else
      var t := Insert(x, s[1..], key);
      InsertBehindHead(x, s, t, key);
      [s[0]] + t
  }

  /** The step of `Insert` past the head: the head stays in front of the insertion into the tail. */
  lemma InsertBehindHead<T>(x: T, s: seq<T>, t: seq<T>, key: T -> int)
    requires s != [] && SortedBy(s, key) && key(s[0]) <= key(x)
    requires SortedBy(t, key) && multiset(t) == multiset(s[1..]) + multiset{x}
    ensures SortedBy([s[0]] + t, key)
    ensures multiset([s[0]] + t) == multiset(s) + multiset{x}
  {
    assert s == [s[0]] + s[1..];
    forall k | 0 <= k < |t| ensures key(s[0]) <= key(t[k]) {
      assert t[k] in multiset(t);
      if t[k] != x {
        assert t[k] in multiset(s[1..]);
        var m :| 0 <= m < |s[1..]| && s[1..][m] == t[k];
        assert s[m + 1] == t[k];
      }
    }
    var r := [s[0]] + t;
    forall i, j | 0 <= i < j < |r| ensures key(r[i]) <= key(r[j]) {
      assert r[j] == t[j - 1];
      if i > 0 {
        assert r[i] == t[i - 1];
      }
    }
  }

  /** Sort `s` by `key`, ascending; elements are inserted in their original order. */
  function SortBy<T>(s: seq<T>, key: T -> int): (r: seq<T>)
    ensures SortedBy(r, key)
    ensures multiset(r) == multiset(s)
    ensures |r| == |s|
  {
    if s == [] then []
    else
      var init := s[..|s| - 1];
      assert s == init + [s[|s| - 1]];
      Insert(s[|s| - 1], SortBy(init, key), key)
  }

  /** An element whose key equals every key of `s` goes to the end. */
  lemma {:induction false} InsertEqualKey<T>(x: T, s: seq<T>, key: T -> int)
    requires forall k :: 0 <= k < |s| ==> key(s[k]) == key(x)
    ensures SortedBy(s, key)
    ensures Insert(x, s, key) == s + [x]
  {
    if s != [] {
      InsertEqualKey(x, s[1..], key);
      assert [s[0]] + (s[1..] + [x]) == s + [x];
    }
  }

  /** When every key is the same, sorting keeps the original order: the sort is stable. */
  lemma {:induction false} SortByEqualKeys<T>(s: seq<T>, key: T -> int)
    requires forall i, j :: 0 <= i < |s| && 0 <= j < |s| ==> key(s[i]) == key(s[j])
    ensures SortBy(s, key) == s
  {
    if s != [] {
      var init := s[..|s| - 1];
      var x := s[|s| - 1];
      EqualKeysInit(s, init, x, key);
      SortByEqualKeys(init, key);
      assert SortBy(s, key) == Insert(x, init, key);
      InsertEqualKey(x, init, key);
      assert init + [x] == s;
    }
  }

  lemma EqualKeysInit<T>(s: seq<T>, init: seq<T>, x: T, key: T -> int)
    requires s == init + [x]
    requires forall i, j :: 0 <= i < |s| && 0 <= j < |s| ==> key(s[i]) == key(s[j])
    ensures forall i, j :: 0 <= i < |init| && 0 <= j < |init| ==> key(init[i]) == key(init[j])
    ensures forall k :: 0 <= k < |init| ==> key(init[k]) == key(x)
  {
    forall i, j | 0 <= i < |init| && 0 <= j < |init| ensures key(init[i]) == key(init[j]) {
      assert init[i] == s[i] && init[j] == s[j];
    }
    forall k | 0 <= k < |init| ensures key(init[k]) == key(x) {
      assert init[k] == s[k] && x == s[|init|];
    }
  }

  /** Membership is unchanged by sorting. */
  lemma SortByMembers<T>(s: seq<T>, key: T -> int, x: T)
    ensures x in SortBy(s, key) <==> x in s
  {
    var r := SortBy(s, key);
    assert x in r <==> x in multiset(r);
    assert x in s <==> x in multiset(s);
  }

  /** `rel` holds between the elements at every two distinct positions of `s`. */
  ghost predicate Pairwise<T>(s: seq<T>, rel: (T, T) -> bool) {
    forall i, j :: 0 <= i < |s| && 0 <= j < |s| && i != j ==> rel(s[i], s[j])
  }

  /** `rel` holds, both ways, between `x` and every element of `s`. */
  ghost predicate RelatedToAll<T>(x: T, s: seq<T>, rel: (T, T) -> bool) {
    forall i :: 0 <= i < |s| ==> rel(x, s[i]) && rel(s[i], x)
  }

  lemma PairwiseCons<T>(x: T, t: seq<T>, rel: (T, T) -> bool)
    requires Pairwise(t, rel) && RelatedToAll(x, t, rel)
    ensures Pairwise([x] + t, rel)
  {
    var r := [x] + t;
    forall i, j | 0 <= i < |r| && 0 <= j < |r| && i != j
      ensures rel(r[i], r[j])
    {
      if i == 0 {
        assert r[j] == t[j - 1];
      } else if j == 0 {
        assert r[i] == t[i - 1];
      } else {
        assert r[i] == t[i - 1] && r[j] == t[j - 1];
      }
    }
  }

  lemma RelatedToAllPermuted<T>(y: T, s: seq<T>, t: seq<T>, rel: (T, T) -> bool)
    requires RelatedToAll(y, s, rel) && multiset(t) <= multiset(s)
    ensures RelatedToAll(y, t, rel)
  {
    forall k | 0 <= k < |t| ensures rel(y, t[k]) && rel(t[k], y) {
      assert t[k] in multiset(s);
      var m :| 0 <= m < |s| && s[m] == t[k];
    }
  }

  /** Inserting `x`, related to everything in `s`, keeps `Pairwise`. */
  lemma {:induction false} InsertPairwise<T>(x: T, s: seq<T>, key: T -> int, rel: (T, T) -> bool)
    requires SortedBy(s, key)
    requires Pairwise(s, rel) && RelatedToAll(x, s, rel)
    ensures Pairwise(Insert(x, s, key), rel)
  {
    if s == [] {
    } else if key(x) < key(s[0]) {
      PairwiseCons(x, s, rel);
    } else {
      var tail := s[1..];
      assert Pairwise(tail, rel) by {
        forall i, j | 0 <= i < |tail| && 0 <= j < |tail| && i != j ensures rel(tail[i], tail[j]) {
          assert tail[i] == s[i + 1] && tail[j] == s[j + 1];
        }
      }
      assert RelatedToAll(x, tail, rel) by {
        forall i | 0 <= i < |tail| ensures rel(x, tail[i]) && rel(tail[i], x) {
          assert tail[i] == s[i + 1];
        }
      }
      InsertPairwise(x, tail, key, rel);
      var t := Insert(x, tail, key);
      assert RelatedToAll(s[0], s[1..] + [x], rel) by {
        var u := s[1..] + [x];
        forall k | 0 <= k < |u| ensures rel(s[0], u[k]) && rel(u[k], s[0]) {
          if k < |tail| { assert u[k] == s[k + 1]; } else { assert u[k] == x; }
        }
      }
      assert multiset(t) == multiset(s[1..] + [x]);
      RelatedToAllPermuted(s[0], s[1..] + [x], t, rel);
      PairwiseCons(s[0], t, rel);
    }
  }

  /** Sorting keeps a relation that holds between every two positions. */
  lemma {:induction false} SortByPairwise<T>(s: seq<T>, key: T -> int, rel: (T, T) -> bool)
    requires Pairwise(s, rel)
    ensures Pairwise(SortBy(s, key), rel)
  {
    if s != [] {
      var init := s[..|s| - 1];
      var x := s[|s| - 1];
      assert Pairwise(init, rel) by {
        forall i, j | 0 <= i < |init| && 0 <= j < |init| && i != j ensures rel(init[i], init[j]) {
          assert init[i] == s[i] && init[j] == s[j];
        }
      }
      SortByPairwise(init, key, rel);
      var sorted := SortBy(init, key);
      assert RelatedToAll(x, init, rel) by {
        forall i | 0 <= i < |init| ensures rel(x, init[i]) && rel(init[i], x) {
          assert init[i] == s[i];
        }
      }
      RelatedToAllPermuted(x, init, sorted, rel);
      InsertPairwise(x, sorted, key, rel);
    }
  }
}

/** The stable insertion sort a sort selector runs, on any element type
    and any comparator: `cmp(a, b) > 0` puts `a` after `b`. */
module Sorting {
  /** `x` is inserted after every element the comparator does not put after
      it: scanning from the back, it passes only elements that compare
      greater. */
  function Insert<T>(cmp: (T, T) -> int, s: seq<T>, x: T): seq<T>
    decreases |s|
  {
    if s == [] || cmp(s[|s| - 1], x) <= 0 then s + [x]
    else Insert(cmp, s[..|s| - 1], x) + [s[|s| - 1]]
  }

  /** Insertion sort, one element at a time from the front. */
  function Sort<T>(cmp: (T, T) -> int, s: seq<T>): seq<T>
    decreases |s|
  {
    if s == [] then []
    else Insert(cmp, Sort(cmp, s[..|s| - 1]), s[|s| - 1])
  }

  lemma {:induction false} InsertPermutes<T>(cmp: (T, T) -> int, s: seq<T>, x: T)
    ensures multiset(Insert(cmp, s, x)) == multiset(s) + multiset{x}
    decreases |s|
  {
    if s != [] && cmp(s[|s| - 1], x) > 0 {
      InsertPermutes(cmp, s[..|s| - 1], x);
      assert s == s[..|s| - 1] + [s[|s| - 1]];
    }
  }

  /** The sort is a permutation, whatever the comparator. */
  lemma {:induction false} SortPermutes<T>(cmp: (T, T) -> int, s: seq<T>)
    ensures multiset(Sort(cmp, s)) == multiset(s)
    decreases |s|
  {
    if s != [] {
      SortPermutes(cmp, s[..|s| - 1]);
      InsertPermutes(cmp, Sort(cmp, s[..|s| - 1]), s[|s| - 1]);
      assert s == s[..|s| - 1] + [s[|s| - 1]];
    }
  }

  /** `a` may come before `b`. */
  predicate Le<T>(cmp: (T, T) -> int, a: T, b: T) {
    cmp(a, b) <= 0
  }

  ghost predicate Transitive<T(!new)>(cmp: (T, T) -> int) {
    forall a, b, c :: Le(cmp, a, b) && Le(cmp, b, c) ==> Le(cmp, a, c)
  }

  /** A consistent comparator: the relation is total and transitive. */
  ghost predicate TotalPreorder<T(!new)>(cmp: (T, T) -> int) {
    && (forall a, b :: Le(cmp, a, b) || Le(cmp, b, a))
    && Transitive(cmp)
  }

  ghost predicate Sorted<T>(cmp: (T, T) -> int, s: seq<T>) {
    forall i, j | 0 <= i < j < |s| :: cmp(s[i], s[j]) <= 0
  }

  predicate Equivalent<T>(cmp: (T, T) -> int, a: T, b: T) {
    cmp(a, b) <= 0 && cmp(b, a) <= 0
  }

  /** The elements of `s` equivalent to `y`, in their order in `s`. */
  function Peers<T>(cmp: (T, T) -> int, s: seq<T>, y: T): seq<T>
    decreases |s|
  {
    if s == [] then []
    else Peers(cmp, s[..|s| - 1], y) + (if Equivalent(cmp, s[|s| - 1], y) then [s[|s| - 1]] else [])
  }

  lemma {:induction false} InsertSorted<T(!new)>(cmp: (T, T) -> int, s: seq<T>, x: T)
    requires TotalPreorder(cmp) && Sorted(cmp, s)
    ensures Sorted(cmp, Insert(cmp, s, x))
    decreases |s|
  {
    if s == [] || cmp(s[|s| - 1], x) <= 0 {
      var r := s + [x];
      forall i, j | 0 <= i < j < |r| ensures cmp(r[i], r[j]) <= 0 {
        if j == |s| && i < |s| - 1 {
          assert Le(cmp, s[i], s[|s| - 1]) && Le(cmp, s[|s| - 1], x);
        }
      }
    } else {
      var init, last := s[..|s| - 1], s[|s| - 1];
      assert Sorted(cmp, init);
      InsertSorted(cmp, init, x);
      var front := Insert(cmp, init, x);
      InsertPermutes(cmp, init, x);
      assert Le(cmp, x, last) || Le(cmp, last, x);
      forall e | e in front ensures cmp(e, last) <= 0 {
        assert e in multiset(front);
        if e != x {
          assert e in multiset(init);
          var k :| 0 <= k < |init| && init[k] == e;
          assert cmp(s[k], s[|s| - 1]) <= 0;
        }
      }
      var r := front + [last];
      forall i, j | 0 <= i < j < |r| ensures cmp(r[i], r[j]) <= 0 {
        if j == |front| {
          assert r[i] in front;
        }
      }
    }
  }

  /** With a consistent comparator the sort orders the items. */
  lemma {:induction false} SortSorted<T(!new)>(cmp: (T, T) -> int, s: seq<T>)
    requires TotalPreorder(cmp)
    ensures Sorted(cmp, Sort(cmp, s))
    decreases |s|
  {
    if s != [] {
      SortSorted(cmp, s[..|s| - 1]);
      InsertSorted(cmp, Sort(cmp, s[..|s| - 1]), s[|s| - 1]);
    }
  }

  lemma {:induction false} PeersSnoc<T>(cmp: (T, T) -> int, s: seq<T>, x: T, y: T)
    ensures Peers(cmp, s + [x], y) == Peers(cmp, s, y) + Single(cmp, x, y)
  {
    assert (s + [x])[..|s|] == s;
  }

  function Single<T>(cmp: (T, T) -> int, x: T, y: T): seq<T> {
    if Equivalent(cmp, x, y) then [x] else []
  }

  /** An element the comparator puts after `x` is not equivalent to
      anything `x` is equivalent to. */
  lemma NotBothPeers<T(!new)>(cmp: (T, T) -> int, last: T, x: T, y: T)
    requires Transitive(cmp) && !Le(cmp, last, x)
    ensures Single(cmp, x, y) == [] || Single(cmp, last, y) == []
  {
    if Equivalent(cmp, x, y) && Equivalent(cmp, last, y) {
      assert Le(cmp, last, y) && Le(cmp, y, x);
    }
  }

  lemma InsertPeersOver<T(!new)>(cmp: (T, T) -> int, init: seq<T>, last: T, x: T, y: T)
    requires Transitive(cmp) && !Le(cmp, last, x)
    requires Peers(cmp, Insert(cmp, init, x), y) == Peers(cmp, init, y) + Single(cmp, x, y)
    ensures Peers(cmp, Insert(cmp, init, x) + [last], y) == Peers(cmp, init + [last], y) + Single(cmp, x, y)
  {
    PeersSnoc(cmp, Insert(cmp, init, x), last, y);
    PeersSnoc(cmp, init, last, y);
    NotBothPeers(cmp, last, x, y);
    var p, fx, fl := Peers(cmp, init, y), Single(cmp, x, y), Single(cmp, last, y);
    assert (p + fx) + fl == (p + fl) + fx;
  }

  /** Inserting `x` adds it after every element equivalent to it. */
  lemma {:induction false} InsertPeers<T(!new)>(cmp: (T, T) -> int, s: seq<T>, x: T, y: T)
    requires Transitive(cmp)
    ensures Peers(cmp, Insert(cmp, s, x), y) == Peers(cmp, s, y) + Single(cmp, x, y)
    decreases |s|
  {
    if s == [] || cmp(s[|s| - 1], x) <= 0 {
      PeersSnoc(cmp, s, x, y);
    } else {
      var init, last := s[..|s| - 1], s[|s| - 1];
      InsertPeers(cmp, init, x, y);
      InsertPeersOver(cmp, init, last, x, y);
      assert s == init + [last];
    }
  }

  /** The sort is stable: equivalent items keep their relative order. */
  lemma {:induction false} SortStable<T(!new)>(cmp: (T, T) -> int, s: seq<T>, y: T)
    requires Transitive(cmp)
    ensures Peers(cmp, Sort(cmp, s), y) == Peers(cmp, s, y)
    decreases |s|
  {
    if s != [] {
      var init, last := s[..|s| - 1], s[|s| - 1];
      SortStable(cmp, init, y);
      InsertPeers(cmp, Sort(cmp, init), last, y);
      assert s == init + [last];
      PeersSnoc(cmp, init, last, y);
    }
  }

  /** Two items out of order are swapped. */
  lemma SortSwapsPair<T>(cmp: (T, T) -> int, a: T, b: T)
    requires cmp(a, b) > 0
    ensures Sort(cmp, [a, b]) == [b, a]
  {
    assert [a, b][..1] == [a];
    assert Sort(cmp, [a]) == [a];
    assert Insert(cmp, [], b) == [b];
  }
}

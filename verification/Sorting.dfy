/** The stable sort by a number that the platform's lists are put in order with. */
module Sorting {
  /** Puts an element after those with the same or a smaller key. */
  function Insert<T>(s: seq<T>, x: T, key: T -> int): seq<T> {
    if s == [] || key(s[|s| - 1]) <= key(x) then s + [x] else Insert(s[..|s| - 1], x, key) + [s[|s| - 1]]
  }

  /** By key; equal ones stay in the order they came. */
  function Sort<T>(s: seq<T>, key: T -> int): seq<T> {
    if s == [] then [] else Insert(Sort(s[..|s| - 1], key), s[|s| - 1], key)
  }

  predicate Ascending<T>(s: seq<T>, key: T -> int) {
    forall i, j | 0 <= i < j < |s| :: key(s[i]) <= key(s[j])
  }

  lemma {:induction false} InsertKeepsAll<T>(s: seq<T>, x: T, key: T -> int)
    ensures multiset(Insert(s, x, key)) == multiset(s) + multiset{x}
  {
    if s != [] && key(s[|s| - 1]) > key(x) {
      InsertKeepsAll(s[..|s| - 1], x, key);
      assert s == s[..|s| - 1] + [s[|s| - 1]];
    }
  }

  lemma LastAscends<T>(front: seq<T>, last: T, key: T -> int)
    requires Ascending(front, key) && forall x | x in front :: key(x) <= key(last)
    ensures Ascending(front + [last], key)
  {
  }

  lemma InsertIsBelow<T>(rest: seq<T>, x: T, last: T, key: T -> int)
    requires Ascending(rest + [last], key) && key(x) < key(last)
    ensures forall y | y in Insert(rest, x, key) :: key(y) <= key(last)
  {
    var all := rest + [last];
    forall y | y in Insert(rest, x, key)
      ensures key(y) <= key(last)
    {
      InsertKeepsAll(rest, x, key);
      assert y in multiset(Insert(rest, x, key));
      if y != x {
        var i :| 0 <= i < |rest| && rest[i] == y;
        assert key(all[i]) <= key(all[|rest|]);
      }
    }
  }

  lemma {:induction false} InsertSorts<T>(s: seq<T>, x: T, key: T -> int)
    requires Ascending(s, key)
    ensures Ascending(Insert(s, x, key), key)
  {
    if s != [] && key(s[|s| - 1]) > key(x) {
      var rest, last := s[..|s| - 1], s[|s| - 1];
      assert s == rest + [last];
      InsertSorts(rest, x, key);
      InsertIsBelow(rest, x, last, key);
      LastAscends(Insert(rest, x, key), last, key);
    }
  }

  lemma TwiceCounts<T>(s: seq<T>, i: nat, j: nat)
    requires i < j < |s| && s[i] == s[j]
    ensures multiset(s)[s[i]] >= 2
  {
    assert s == s[..j] + [s[j]] + s[j + 1..];
    assert s[i] in s[..j];
  }

  /** The same elements, in order. */
  lemma {:induction false} SortSorts<T>(s: seq<T>, key: T -> int)
    ensures Ascending(Sort(s, key), key) && multiset(Sort(s, key)) == multiset(s)
  {
    if s != [] {
      var front, last := s[..|s| - 1], s[|s| - 1];
      assert s == front + [last];
      SortSorts(front, key);
      InsertSorts(Sort(front, key), last, key);
      InsertKeepsAll(Sort(front, key), last, key);
    }
  }

  /** Sorting what is in order changes nothing. */
  lemma {:induction false} SortKeepsSorted<T>(s: seq<T>, key: T -> int)
    requires Ascending(s, key)
    ensures Sort(s, key) == s
  {
    if s != [] {
      var front, last := s[..|s| - 1], s[|s| - 1];
      SortKeepsSorted(front, key);
      if front != [] {
        assert key(s[|s| - 2]) <= key(s[|s| - 1]);
      }
      assert Insert(front, last, key) == front + [last];
      assert s == front + [last];
    }
  }
}

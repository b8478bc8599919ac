/** What the models share: optional values, how a storage call ends, and the elements of a list that satisfy a test. */
module Wrappers {
  datatype Option<+T> = None | Some(value: T) {
    /** The value, or the given default where there is none. */
    function GetOr(default: T): T {
      if Some? then value else default
    }
  }

  /** How a storage call ends: it returns, it throws although it took effect, or it throws and did nothing. */
  datatype Outcome = Done | LostReply | Refused {
    predicate Applied() { !Refused? }
    predicate Threw() { !Done? }
  }

  function At<K, T>(m: map<K, T>, k: K): Option<T> {
    if k in m then Some(m[k]) else None
  }

  function Filter<T>(s: seq<T>, p: T -> bool): (r: seq<T>)
    ensures forall x | x in r :: x in s && p(x)
    ensures forall x | x in s && p(x) :: x in r
  {
    if s == [] then [] else
      Filter(s[..|s| - 1], p) + if p(s[|s| - 1]) then [s[|s| - 1]] else []
  }

  lemma FilterAppend<T>(s: seq<T>, x: T, p: T -> bool)
    ensures Filter(s + [x], p) == Filter(s, p) + if p(x) then [x] else []
  {
    assert (s + [x])[..|s|] == s;
  }

  lemma LastOfBoth<T>(s: seq<T>, t: seq<T>)
    requires t != []
    ensures (s + t)[..|s + t| - 1] == s + t[..|t| - 1] && (s + t)[|s + t| - 1] == t[|t| - 1]
  {
  }

  lemma {:induction false} FilterBoth<T>(s: seq<T>, t: seq<T>, p: T -> bool)
    ensures Filter(s + t, p) == Filter(s, p) + Filter(t, p)
  {
    if t == [] {
      assert s + t == s;
    } else {
      var more: seq<T> := if p(t[|t| - 1]) then [t[|t| - 1]] else [];
      FilterBoth(s, t[..|t| - 1], p);
      LastOfBoth(s, t);
      calc {
        Filter(s + t, p);
        Filter(s + t[..|t| - 1], p) + more;
        (Filter(s, p) + Filter(t[..|t| - 1], p)) + more;
        Filter(s, p) + (Filter(t[..|t| - 1], p) + more);
      }
    }
  }

  /** A first test that every element passing the second one passes changes nothing. */
  lemma {:induction false} FilterTwice<T>(s: seq<T>, wide: T -> bool, narrow: T -> bool)
    requires forall x | x in s && narrow(x) :: wide(x)
    ensures Filter(Filter(s, wide), narrow) == Filter(s, narrow)
  {
    if s != [] {
      var front, last := s[..|s| - 1], s[|s| - 1];
      assert s == front + [last] && last in s;
      FilterTwice(front, wide, narrow);
      FilterAppend(front, last, wide);
      FilterAppend(front, last, narrow);
      if wide(last) {
        FilterAppend(Filter(front, wide), last, narrow);
      } else {
        assert Filter(s, wide) == Filter(front, wide) && Filter(s, narrow) == Filter(front, narrow);
      }
    }
  }

  lemma {:induction false} FilterNone<T>(s: seq<T>, p: T -> bool)
    requires forall x | x in s :: !p(x)
    ensures Filter(s, p) == []
  {
    if s != [] {
      assert s[|s| - 1] in s;
      FilterNone(s[..|s| - 1], p);
    }
  }

  lemma FirstIsIn<T>(s: seq<T>)
    ensures s == [] || s[0] in s
  {
  }
}

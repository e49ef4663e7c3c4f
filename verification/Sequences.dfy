/** Filtering and mapping of row lists, in the row order, and the size of sets. */
module Sequences {

  function Filter<T(!new)>(s: seq<T>, keep: T -> bool): (r: seq<T>)
    ensures |r| <= |s|
    ensures forall x :: x in r <==> x in s && keep(x)
  {
    if s == [] then [] else
    var front := Filter(s[..|s| - 1], keep);
    var last := s[|s| - 1];
    assert s == s[..|s| - 1] + [last];
    if keep(last) then front + [last] else front
  }

  function Map<T, U>(s: seq<T>, f: T -> U): (r: seq<U>)
    ensures |r| == |s|
    ensures forall i :: 0 <= i < |s| ==> r[i] == f(s[i])
  {
    seq(|s|, i requires 0 <= i < |s| => f(s[i]))
  }

  lemma {:induction false} FilterAppend<T(!new)>(s: seq<T>, t: seq<T>, keep: T -> bool)
    ensures Filter(s + t, keep) == Filter(s, keep) + Filter(t, keep)
  {
    if t == [] {
      assert s + t == s;
    } else {
      var front, last := t[..|t| - 1], t[|t| - 1];
      FilterAppend(s, front, keep);
      FilterLast(s + t, s + front, last, keep);
      FilterLast(t, front, last, keep);
      AppendAssociates(Filter(s, keep), Filter(front, keep), [last]);
    }
  }

  lemma AppendAssociates<T>(a: seq<T>, b: seq<T>, c: seq<T>)
    ensures a + b + c == a + (b + c)
  {
  }

  lemma FilterLast<T(!new)>(s: seq<T>, front: seq<T>, last: T, keep: T -> bool)
    requires |s| == |front| + 1 && s[|front|] == last
    requires forall i :: 0 <= i < |front| ==> s[i] == front[i]
    ensures Filter(s, keep) == if keep(last) then Filter(front, keep) + [last] else Filter(front, keep)
  {
    assert s[..|s| - 1] == front;
  }

  /** Two conditions that agree on the listed rows select the same rows. */
  lemma {:induction false} FilterCongruent<T(!new)>(s: seq<T>, p: T -> bool, q: T -> bool)
    requires forall x :: x in s ==> p(x) == q(x)
    ensures Filter(s, p) == Filter(s, q)
  {
    if s != [] {
      assert forall x :: x in s[..|s| - 1] ==> x in s;
      FilterCongruent(s[..|s| - 1], p, q);
    }
  }

  lemma {:induction false} FilterNothing<T(!new)>(s: seq<T>, keep: T -> bool)
    requires forall x :: x in s ==> !keep(x)
    ensures Filter(s, keep) == []
  {
    if s != [] {
      assert forall x :: x in s[..|s| - 1] ==> x in s;
      FilterNothing(s[..|s| - 1], keep);
    }
  }

  /** Filtering twice is filtering by both conditions. */
  lemma {:induction false} FilterFilter<T(!new)>(s: seq<T>, p: T -> bool, q: T -> bool, both: T -> bool)
    requires forall x :: x in s ==> both(x) == (p(x) && q(x))
    ensures Filter(Filter(s, p), q) == Filter(s, both)
  {
    if s != [] {
      var front, last := s[..|s| - 1], s[|s| - 1];
      assert forall x :: x in front ==> x in s;
      FilterFilter(front, p, q, both);
      assert last in s;
      if p(last) {
        FilterAppend(Filter(front, p), [last], q);
        assert Filter(s, p) == Filter(front, p) + [last];
      }
    }
  }

  lemma {:induction false} SmallerSet<T>(a: set<T>, b: set<T>)
    requires a <= b
    ensures |a| <= |b|
  {
    if x :| x in a { SmallerSet(a - {x}, b - {x}); }
  }
}

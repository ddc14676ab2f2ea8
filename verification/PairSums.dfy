/** Sums of a symmetric quantity over all pairs of elements, in whatever order the
    elements come. */
module PairSums {
  import opened Sorting

  ghost predicate Symmetric<T(!new)>(g: (T, T) -> nat) {
    forall x, y :: g(x, y) == g(y, x)
  }

  function SumTo<T>(s: seq<T>, x: T, g: (T, T) -> nat): nat {
    if s == [] then 0 else SumTo(s[..|s| - 1], x, g) + g(s[|s| - 1], x)
  }

  /** The sum over every pair of positions. */
  function PairSum<T>(s: seq<T>, g: (T, T) -> nat): nat {
    if s == [] then 0 else PairSum(s[..|s| - 1], g) + SumTo(s[..|s| - 1], s[|s| - 1], g)
  }

  lemma {:induction false} SumToInserted<T>(u: seq<T>, y: T, v: seq<T>, x: T, g: (T, T) -> nat)
    ensures SumTo(u + [y] + v, x, g) == SumTo(u + v, x, g) + g(y, x)
  {
    if v == [] {
      assert u + [y] + v == u + [y] && u + v == u;
      SumToAppended(u, y, x, g);
    } else {
      var w, l := v[..|v| - 1], v[|v| - 1];
      var longer, shorter := u + [y] + w, u + w;
      assert u + [y] + v == longer + [l] && u + v == shorter + [l];
      SumToInserted(u, y, w, x, g);
      SumToAppended(longer, l, x, g);
      SumToAppended(shorter, l, x, g);
    }
  }

  lemma PairSumAppended<T>(s: seq<T>, y: T, g: (T, T) -> nat)
    ensures PairSum(s + [y], g) == PairSum(s, g) + SumTo(s, y, g)
  {
    assert (s + [y])[..|s|] == s;
  }

  lemma SumToAppended<T>(s: seq<T>, y: T, x: T, g: (T, T) -> nat)
    ensures SumTo(s + [y], x, g) == SumTo(s, x, g) + g(y, x)
  {
    assert (s + [y])[..|s|] == s;
  }

  lemma {:induction false} PairSumInserted<T(!new)>(u: seq<T>, x: T, v: seq<T>, g: (T, T) -> nat)
    requires Symmetric(g)
    ensures PairSum(u + [x] + v, g) == PairSum(u + v, g) + SumTo(u + v, x, g)
  {
    if v == [] {
      assert u + [x] + v == u + [x] && u + v == u;
      PairSumAppended(u, x, g);
    } else {
      var w, l := v[..|v| - 1], v[|v| - 1];
      var longer, shorter := u + [x] + w, u + w;
      assert u + [x] + v == longer + [l] && u + v == shorter + [l];
      PairSumInserted(u, x, w, g);
      PairSumAppended(longer, l, g);
      PairSumAppended(shorter, l, g);
      SumToInserted(u, x, w, l, g);
      SumToAppended(shorter, l, x, g);
    }
  }

  lemma InsertingAdds<T(!new)>(t: seq<T>, y: T, x: T, leq: (T, T) -> bool, g: (T, T) -> nat)
    requires Symmetric(g)
    ensures PairSum(InsertBy(t, y, leq), g) == PairSum(t, g) + SumTo(t, y, g)
    ensures SumTo(InsertBy(t, y, leq), x, g) == SumTo(t, x, g) + g(y, x)
  {
    var k := InsertPlace(t, y, leq);
    var u, v := t[..k], t[k..];
    assert t == u + v;
    PairSumInserted(u, y, v, g);
    SumToInserted(u, y, v, x, g);
  }

  lemma {:induction false} SortKeepsSumTo<T(!new)>(s: seq<T>, x: T, leq: (T, T) -> bool, g: (T, T) -> nat)
    requires Symmetric(g)
    ensures SumTo(SortBy(s, leq), x, g) == SumTo(s, x, g)
  {
    if s != [] {
      var init, last := s[..|s| - 1], s[|s| - 1];
      SortKeepsSumTo(init, x, leq, g);
      InsertingAdds(SortBy(init, leq), last, x, leq, g);
    }
  }

  lemma {:induction false} SortKeepsPairSum<T(!new)>(s: seq<T>, leq: (T, T) -> bool, g: (T, T) -> nat)
    requires Symmetric(g)
    ensures PairSum(SortBy(s, leq), g) == PairSum(s, g)
  {
    if s != [] {
      var init, last := s[..|s| - 1], s[|s| - 1];
      SortKeepsPairSum(init, leq, g);
      SortKeepsSumTo(init, last, leq, g);
      InsertingAdds(SortBy(init, leq), last, last, leq, g);
    }
  }

  lemma {:induction false} SumToNothing<T>(t: seq<T>, x: T, g: (T, T) -> nat)
    requires forall i :: 0 <= i < |t| ==> g(t[i], x) == 0
    ensures SumTo(t, x, g) == 0
  {
    if t != [] {
      SumToNothing(t[..|t| - 1], x, g);
    }
  }

  /** Where only the last can matter to `x`, only the last is summed. */
  lemma SumToLast<T>(t: seq<T>, x: T, g: (T, T) -> nat)
    requires t != [] && forall i :: 0 <= i < |t| - 1 ==> g(t[i], x) == 0
    ensures SumTo(t, x, g) == g(t[|t| - 1], x)
  {
    SumToNothing(t[..|t| - 1], x, g);
  }
}

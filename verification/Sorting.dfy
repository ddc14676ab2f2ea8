/** Sorting by a total order, standing in for the library sorts. */
module Sorting {
  ghost predicate Ordering<T(!new)>(leq: (T, T) -> bool) {
    && (forall x, y :: leq(x, y) || leq(y, x))
    && (forall x, y, z :: leq(x, y) && leq(y, z) ==> leq(x, z))
  }

  ghost predicate SortedBy<T>(s: seq<T>, leq: (T, T) -> bool) {
    forall i, j :: 0 <= i < j < |s| ==> leq(s[i], s[j])
  }

  function InsertBy<T>(s: seq<T>, x: T, leq: (T, T) -> bool): seq<T> {
    if s == [] || leq(s[|s| - 1], x) then s + [x] else InsertBy(s[..|s| - 1], x, leq) + [s[|s| - 1]]
  }

  function SortBy<T>(s: seq<T>, leq: (T, T) -> bool): seq<T> {
    if s == [] then [] else InsertBy(SortBy(s[..|s| - 1], leq), s[|s| - 1], leq)
  }

  lemma {:induction false} InsertPlace<T>(s: seq<T>, x: T, leq: (T, T) -> bool) returns (k: nat)
    ensures k <= |s| && InsertBy(s, x, leq) == s[..k] + [x] + s[k..]
    ensures k > 0 ==> leq(s[k - 1], x)
    ensures k < |s| ==> !leq(s[k], x)
  {
    if s == [] || leq(s[|s| - 1], x) {
      k := |s|;
    } else {
      var init, last := s[..|s| - 1], s[|s| - 1];
      k := InsertPlace(init, x, leq);
      assert init[..k] == s[..k] && init[k..] + [last] == s[k..];
    }
  }

  lemma InsertedMembers<T>(r: seq<T>, s: seq<T>, a: seq<T>, x: T, b: seq<T>)
    requires r == a + [x] + b && s == a + b
    ensures multiset(r) == multiset(s) + multiset{x}
  {
  }

  lemma InsertByMembers<T>(s: seq<T>, x: T, leq: (T, T) -> bool)
    ensures multiset(InsertBy(s, x, leq)) == multiset(s) + multiset{x}
  {
    var k := InsertPlace(s, x, leq);
    var a, b := s[..k], s[k..];
    assert s == a + b;
    InsertedMembers(InsertBy(s, x, leq), s, a, x, b);
  }

  lemma InsertBySorts<T(!new)>(s: seq<T>, x: T, leq: (T, T) -> bool)
    requires Ordering(leq) && SortedBy(s, leq)
    ensures SortedBy(InsertBy(s, x, leq), leq)
  {
    var k := InsertPlace(s, x, leq);
    var r := s[..k] + [x] + s[k..];
    forall i | 0 <= i < |s| ensures if i < k then leq(s[i], x) else leq(x, s[i]) {
      if i < k - 1 { assert leq(s[i], s[k - 1]); }
      if k < i { assert leq(s[k], s[i]); }
    }
    forall i, j | 0 <= i < j < |r| ensures leq(r[i], r[j]) {
      assert r[i] == (if i < k then s[i] else if i == k then x else s[i - 1]);
      assert r[j] == (if j < k then s[j] else if j == k then x else s[j - 1]);
    }
  }

  lemma {:induction false} SortBySorts<T(!new)>(s: seq<T>, leq: (T, T) -> bool)
    requires Ordering(leq)
    ensures SortedBy(SortBy(s, leq), leq)
    ensures multiset(SortBy(s, leq)) == multiset(s)
    ensures |SortBy(s, leq)| == |s|
  {
    if s != [] {
      SortBySorts(s[..|s| - 1], leq);
      InsertBySorts(SortBy(s[..|s| - 1], leq), s[|s| - 1], leq);
      InsertByMembers(SortBy(s[..|s| - 1], leq), s[|s| - 1], leq);
      assert s == s[..|s| - 1] + [s[|s| - 1]];
    }
    assert |multiset(SortBy(s, leq))| == |SortBy(s, leq)| && |multiset(s)| == |s|;
  }

  ghost predicate AllDiffer<T>(s: seq<T>, key: T -> nat) {
    forall i, j :: 0 <= i < j < |s| ==> key(s[i]) != key(s[j])
  }

  lemma SortByMembers<T(!new)>(s: seq<T>, leq: (T, T) -> bool)
    requires Ordering(leq)
    ensures forall x :: x in SortBy(s, leq) <==> x in s
  {
    SortBySorts(s, leq);
    forall x ensures x in SortBy(s, leq) <==> x in s {
      assert x in SortBy(s, leq) <==> x in multiset(SortBy(s, leq));
    }
  }

  lemma InsertedDiffers<T>(r: seq<T>, t: seq<T>, k: nat, x: T, key: T -> nat)
    requires k <= |t| && r == t[..k] + [x] + t[k..]
    requires AllDiffer(t, key) && forall i :: 0 <= i < |t| ==> key(t[i]) != key(x)
    ensures AllDiffer(r, key)
  {
    forall i, j | 0 <= i < j < |r| ensures key(r[i]) != key(r[j]) {
      assert r[i] == if i < k then t[i] else if i == k then x else t[i - 1];
      assert r[j] == if j < k then t[j] else if j == k then x else t[j - 1];
    }
  }

  lemma LastDiffers<T(!new)>(s: seq<T>, t: seq<T>, key: T -> nat)
    requires s != [] && AllDiffer(s, key) && forall x :: x in t ==> x in s[..|s| - 1]
    ensures forall i :: 0 <= i < |t| ==> key(t[i]) != key(s[|s| - 1])
  {
    forall i | 0 <= i < |t| ensures key(t[i]) != key(s[|s| - 1]) {
      var x := t[i];
      assert x in t && x in s[..|s| - 1];
      var j :| 0 <= j < |s| - 1 && s[..|s| - 1][j] == x;
      assert s[j] == x;
    }
  }

  lemma {:induction false} SortKeepsDifferent<T(!new)>(s: seq<T>, leq: (T, T) -> bool, key: T -> nat)
    requires Ordering(leq) && AllDiffer(s, key)
    ensures AllDiffer(SortBy(s, leq), key)
  {
    if s != [] {
      var init, last := s[..|s| - 1], s[|s| - 1];
      var t := SortBy(init, leq);
      SortKeepsDifferent(init, leq, key);
      SortByMembers(init, leq);
      LastDiffers(s, t, key);
      var k := InsertPlace(t, last, leq);
      InsertedDiffers(SortBy(s, leq), t, k, last, key);
    }
  }

  /** The order tells elements apart. */
  ghost predicate Identifies<T(!new)>(s: seq<T>, leq: (T, T) -> bool) {
    forall x, y :: x in s && y in s && leq(x, y) && leq(y, x) ==> x == y
  }

  lemma WithoutLast<T>(s: seq<T>)
    requires s != []
    ensures multiset(s[..|s| - 1]) == multiset(s) - multiset{s[|s| - 1]}
  {
    assert s == s[..|s| - 1] + [s[|s| - 1]];
  }

  ghost predicate Comparable<T(!new)>(s: seq<T>, t: seq<T>, leq: (T, T) -> bool) {
    SortedBy(s, leq) && SortedBy(t, leq) && Identifies(s, leq) && multiset(s) == multiset(t)
  }

  lemma SameLast<T(!new)>(s: seq<T>, t: seq<T>, leq: (T, T) -> bool)
    requires Ordering(leq) && Comparable(s, t, leq) && s != [] && t != []
    ensures s[|s| - 1] == t[|t| - 1]
  {
    var x, y := s[|s| - 1], t[|t| - 1];
    assert y in multiset(s) && x in multiset(t);
    var i :| 0 <= i < |s| && s[i] == y;
    var j :| 0 <= j < |t| && t[j] == x;
    assert leq(y, x) && leq(x, y);
  }

  lemma PrefixKeeps<T(!new)>(s: seq<T>, leq: (T, T) -> bool)
    requires s != [] && SortedBy(s, leq) && Identifies(s, leq)
    ensures SortedBy(s[..|s| - 1], leq) && Identifies(s[..|s| - 1], leq)
  {
    var init := s[..|s| - 1];
    forall x | x in init ensures x in s {
      var i :| 0 <= i < |init| && init[i] == x;
      assert s[i] == x;
    }
  }

  lemma Shorter<T(!new)>(s: seq<T>, t: seq<T>, leq: (T, T) -> bool)
    requires Ordering(leq) && Comparable(s, t, leq) && s != [] && t != []
    ensures s[|s| - 1] == t[|t| - 1] && Comparable(s[..|s| - 1], t[..|t| - 1], leq)
  {
    SameLast(s, t, leq);
    WithoutLast(s);
    WithoutLast(t);
    PrefixKeeps(s, leq);
  }

  lemma {:induction false} SortedIsUnique<T(!new)>(s: seq<T>, t: seq<T>, leq: (T, T) -> bool)
    requires Ordering(leq) && Comparable(s, t, leq)
    ensures s == t
  {
    assert |s| == |multiset(s)| && |t| == |multiset(t)|;
    if s != [] {
      Shorter(s, t, leq);
      SortedIsUnique(s[..|s| - 1], t[..|t| - 1], leq);
      assert s == s[..|s| - 1] + [s[|s| - 1]] && t == t[..|t| - 1] + [t[|t| - 1]];
    }
  }

  /** Sorting sees only which elements there are, not the order they came in. */
  lemma SortForgetsOrder<T(!new)>(s: seq<T>, t: seq<T>, leq: (T, T) -> bool)
    requires Ordering(leq) && Identifies(s, leq) && multiset(s) == multiset(t)
    ensures SortBy(s, leq) == SortBy(t, leq)
  {
    SortBySorts(s, leq);
    SortBySorts(t, leq);
    forall x | x in SortBy(s, leq) ensures x in s {
      assert x in multiset(SortBy(s, leq));
    }
    SortedIsUnique(SortBy(s, leq), SortBy(t, leq), leq);
  }
}

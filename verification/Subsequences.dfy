/** Order-preserving selections from a sequence. */
module Subsequences {
  /** `at` says where in `b` each element of `a` sits. */
  ghost predicate Embeds<T>(at: seq<nat>, a: seq<T>, b: seq<T>) {
    && |at| == |a|
    && (forall i :: 0 <= i < |a| ==> at[i] < |b| && b[at[i]] == a[i])
    && (forall i, j :: 0 <= i < j < |a| ==> at[i] < at[j])
  }

  ghost predicate IsSubsequence<T>(a: seq<T>, b: seq<T>) {
    exists at :: Embeds(at, a, b)
  }

  lemma EmptyIsSubsequence<T>(b: seq<T>)
    ensures IsSubsequence([], b)
  {
    assert Embeds([], [], b);
  }

  lemma ExtendBoth<T>(a: seq<T>, b: seq<T>, x: T)
    requires IsSubsequence(a, b)
    ensures IsSubsequence(a + [x], b + [x])
  {
    var at: seq<nat> :| Embeds(at, a, b);
    var at': seq<nat> := at + [|b|];
    assert Embeds(at', a + [x], b + [x]);
  }

  lemma ExtendWhole<T>(a: seq<T>, b: seq<T>, x: T)
    requires IsSubsequence(a, b)
    ensures IsSubsequence(a, b + [x])
  {
    var at :| Embeds(at, a, b);
    assert Embeds(at, a, b + [x]);
  }

  /** Leaving out a stretch keeps the order of the rest. */
  lemma LeaveOut<T>(x: seq<T>, y: seq<T>, z: seq<T>, b: seq<T>)
    requires IsSubsequence(x + y + z, b)
    ensures IsSubsequence(x + z, b)
  {
    var w := x + y + z;
    var at :| Embeds(at, w, b);
    var at' := at[..|x|] + at[|x| + |y|..];
    forall i | 0 <= i < |x + z| ensures at'[i] < |b| && b[at'[i]] == (x + z)[i] {
      if i < |x| {
        assert at'[i] == at[i] && w[i] == x[i];
      } else {
        assert at'[i] == at[i + |y|] && w[i + |y|] == z[i - |x|];
      }
    }
    assert Embeds(at', x + z, b);
  }
}

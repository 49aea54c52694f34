/** Order facts about sequences: subsequences and repetition-free sequences. */
module Sequences {

  /** `a` is `b` with some elements left out, the rest in their original order. */
  predicate IsSubseq<T(==)>(a: seq<T>, b: seq<T>)
    decreases |b|
  {
    || |a| == 0
    || (&& |b| > 0
        && (|| (a[|a| - 1] == b[|b| - 1] && IsSubseq(a[..|a| - 1], b[..|b| - 1]))
            || IsSubseq(a, b[..|b| - 1])))
  }

  /** No element occurs twice. */
  predicate NoDuplicates<T(==)>(s: seq<T>)
  {
    forall i, j :: 0 <= i < j < |s| ==> s[i] != s[j]
  }

  /** Taking the next element of `b` into `a` keeps `a` a subsequence. */
  lemma SubseqTake<T>(a: seq<T>, b: seq<T>, x: T)
    requires IsSubseq(a, b)
    ensures IsSubseq(a + [x], b + [x])
  {
    assert (a + [x])[..|a|] == a;
    assert (b + [x])[..|b|] == b;
  }

  /** Skipping the next element of `b` keeps `a` a subsequence. */
  lemma SubseqSkip<T>(a: seq<T>, b: seq<T>, x: T)
    requires IsSubseq(a, b)
    ensures IsSubseq(a, b + [x])
  {
    assert (b + [x])[..|b|] == b;
  }

  /** Appending an element not yet present keeps a sequence repetition-free. */
  lemma NoDuplicatesAppend<T>(s: seq<T>, x: T)
    requires NoDuplicates(s) && x !in s
    ensures NoDuplicates(s + [x])
  {
  }

  /** A subsequence only holds elements of the whole. */
  lemma {:induction false} SubseqMembers<T>(a: seq<T>, b: seq<T>)
    requires IsSubseq(a, b)
    ensures forall x :: x in a ==> x in b
  {
    if |a| > 0 {
      var a', b' := a[..|a| - 1], b[..|b| - 1];
      if a[|a| - 1] == b[|b| - 1] && IsSubseq(a', b') {
        SubseqMembers(a', b');
        assert a == a' + [a[|a| - 1]];
        assert b == b' + [b[|b| - 1]];
      } else {
        SubseqMembers(a, b');
        assert b == b' + [b[|b| - 1]];
      }
    }
  }

  /**
   * A subsequence is no longer than the whole, and strictly shorter when it
   * leaves out some element of the whole.
   */
  lemma {:induction false} SubseqLength<T>(a: seq<T>, b: seq<T>, x: T)
    requires IsSubseq(a, b)
    ensures |a| <= |b|
    ensures x in b && x !in a ==> |a| < |b|
  {
    if |b| > 0 {
      var b' := b[..|b| - 1];
      assert b == b' + [b[|b| - 1]];
      if |a| > 0 && a[|a| - 1] == b[|b| - 1] && IsSubseq(a[..|a| - 1], b') {
        var a' := a[..|a| - 1];
        assert a == a' + [a[|a| - 1]];
        SubseqLength(a', b', x);
      } else if |a| > 0 {
        SubseqLength(a, b', x);
      }
    }
  }

  /** The element at a position is an element of the sequence. */
  lemma ElementAt<T>(s: seq<T>, i: int)
    requires 0 <= i < |s|
    ensures s[i] in s
  {
  }

  /** A repetition-free sequence whose only element is `x` is `[x]`. */
  lemma SingletonByMembers<T>(s: seq<T>, x: T)
    requires NoDuplicates(s)
    requires forall y :: y in s <==> y == x
    ensures s == [x]
  {
    assert x in s;
    assert s[0] == x by { assert s[0] in s; }
    if 1 < |s| {
      ElementAt(s, 1);
      assert false;
    }
  }
}

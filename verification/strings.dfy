/** Substrings: Python's `needle in hay` on strings, and how it behaves under concatenation. */
module Strings {
  /** `needle` occurs in `hay` starting at index `i`. */
  predicate OccursAt(needle: string, hay: string, i: int)
  {
    0 <= i && i + |needle| <= |hay| && hay[i..i + |needle|] == needle
  }

  /** Python's `needle in hay` on strings. */
  predicate Contains(hay: string, needle: string)
  {
    exists i :: 0 <= i <= |hay| && OccursAt(needle, hay, i)
  }

  /** A substring of a substring is a substring. */
  lemma {:induction false} ContainsTransitive(a: string, b: string, c: string)
    requires Contains(b, a) && Contains(c, b)
    ensures Contains(c, a)
  {
    var i :| 0 <= i <= |b| && OccursAt(a, b, i);
    var j :| 0 <= j <= |c| && OccursAt(b, c, j);
    forall k | 0 <= k < |a|
      ensures c[j + i + k] == a[k]
    {
      assert b[i + k] == b[i..i + |a|][k];
      assert c[j + (i + k)] == c[j..j + |b|][i + k];
    }
    assert c[j + i..j + i + |a|] == a;
    assert OccursAt(a, c, j + i);
  }

  /** A text found in `b` is found in `a + b` and in `b + a`. */
  lemma ContainsInConcat(a: string, b: string, needle: string)
    requires Contains(b, needle)
    ensures Contains(a + b, needle) && Contains(b + a, needle)
  {
    var i :| 0 <= i <= |b| && OccursAt(needle, b, i);
    assert (a + b)[|a| + i..|a| + i + |needle|] == b[i..i + |needle|];
    assert OccursAt(needle, a + b, |a| + i);
    assert (b + a)[i..i + |needle|] == b[i..i + |needle|];
    assert OccursAt(needle, b + a, i);
  }

  /** `b` is found in `a + b`. */
  lemma SuffixContained(a: string, b: string)
    ensures Contains(a + b, b)
  {
    assert (a + b)[|a|..|a| + |b|] == b;
    assert OccursAt(b, a + b, |a|);
  }

  /** `a` is the prefix of `a + b`. */
  lemma PrefixOfConcat(a: string, b: string)
    ensures |a| <= |a + b| && (a + b)[..|a|] == a
  {
  }
}

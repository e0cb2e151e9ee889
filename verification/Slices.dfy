/** Slices of concatenations. */
module Slices {

  lemma IsRight<T>(x: seq<T>, y: seq<T>)
    ensures (x + y)[|x|..|x| + |y|] == y
    ensures (x + y)[|x|..] == y
    ensures (x + y)[..|x|] == x
  {
  }

  lemma Associates<T>(a: seq<T>, b: seq<T>, c: seq<T>)
    ensures (a + b) + c == a + (b + c)
  {
  }

  /** Four parts between two ends, grouped from either end. */
  lemma Regroup<T>(pre: seq<T>, a: seq<T>, b: seq<T>, c: seq<T>, d: seq<T>, post: seq<T>)
    ensures pre + ((a + b + c + d) + post) == pre + a + b + (c + d + post)
    ensures pre + ((a + b + c + d) + post) == (pre + a + b) + c + d + post
    ensures pre + ((a + b + c + d) + post) == (pre + (a + b + c + d)) + post
  {
  }

  /** The two middle parts of four, found by position. */
  lemma MiddleParts<T>(before: seq<T>, a: seq<T>, b: seq<T>, after: seq<T>)
    ensures (before + a + b + after)[|before|..|before| + |a|] == a
    ensures (before + a + b + after)[|before| + |a|..|before| + |a| + |b|] == b
  {
  }
}

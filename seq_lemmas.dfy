/**
 * Facts about sequence concatenation and slicing, stated once for any
 * element type so that the proofs about messages, strings and bytes can
 * use them without re-deriving sequence extensionality in a large context.
 */
module SeqLemmas {
  lemma ConcatEmpty<T>(s: seq<T>)
    ensures s + [] == s
  {
  }

  lemma ConcatAssoc<T>(a: seq<T>, b: seq<T>, c: seq<T>)
    ensures a + b + c == a + (b + c)
  {
  }

  lemma ConcatAssoc4<T>(a: seq<T>, b: seq<T>, c: seq<T>, d: seq<T>)
    ensures a + b + c + d == a + (b + (c + d))
  {
  }

  /** The two halves of a concatenation are recovered by slicing at the seam. */
  lemma SliceConcat<T>(a: seq<T>, b: seq<T>)
    ensures (a + b)[..|a|] == a && (a + b)[|a|..] == b
    ensures |a| > 0 ==> (a + b)[0] == a[0]
    ensures |b| > 0 ==> (a + b)[|a|] == b[0]
  {
  }

  lemma HeadThenRest<T>(s: seq<T>)
    requires |s| >= 1
    ensures [s[0]] + s[1..] == s
  {
  }

  lemma FirstThreeThenRest<T>(s: seq<T>)
    requires |s| >= 3
    ensures [s[0], s[1], s[2]] + s[3..] == s
  {
  }
}

/** Generic facts about sequences, stated once so that callers reason about them abstractly. */
module Seqs {

  /** The middle part of a three-way concatenation is found again by slicing. */
  lemma SliceMiddle<T>(a: seq<T>, b: seq<T>, c: seq<T>)
    ensures |a| + |b| <= |a + b + c|
    ensures (a + b + c)[|a| .. |a| + |b|] == b
  {
  }

  /** Element `k` of the middle part of a three-way concatenation, found from the front. */
  lemma IndexMiddle<T>(a: seq<T>, b: seq<T>, c: seq<T>, k: nat)
    requires k < |b|
    ensures |a| + k < |a + b + c|
    ensures (a + b + c)[|a| + k] == b[k]
  {
  }

  /** The first element after the middle part of a three-way concatenation. */
  lemma IndexAfterMiddle<T>(a: seq<T>, b: seq<T>, c: seq<T>)
    requires 0 < |c|
    ensures |a| + |b| < |a + b + c|
    ensures (a + b + c)[|a| + |b|] == c[0]
  {
  }
}

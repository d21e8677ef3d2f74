/** Facts about sequence concatenation used by the proofs of the other modules. */
module Seqs {

  lemma AppendAssoc<T>(a: seq<T>, b: seq<T>, c: seq<T>)
    ensures (a + b) + c == a + (b + c)
  {
  }

  /** Putting the same head in front of a prefix and of its extension keeps the prefix order. */
  lemma PrefixAfterCommonHead<T>(head: seq<T>, a: seq<T>, b: seq<T>)
    requires a <= b
    ensures head + a <= head + b
  {
    assert (head + b)[..|head + a|] == head + a;
  }

  /** A slice inside the first part of a concatenation is a slice of that part. */
  lemma SliceInHead<T>(a: seq<T>, b: seq<T>, lo: nat, hi: nat)
    requires lo <= hi <= |a|
    ensures (a + b)[lo..hi] == a[lo..hi]
  {
  }

  /** A slice past the first part of a concatenation is a slice of the second. */
  lemma SliceInTail<T>(a: seq<T>, b: seq<T>, lo: nat, hi: nat)
    requires lo <= hi <= |b|
    ensures (a + b)[|a| + lo .. |a| + hi] == b[lo..hi]
    ensures hi < |b| ==> (a + b)[|a| + hi] == b[hi]
  {
  }
}

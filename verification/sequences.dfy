/** Facts about sequence concatenation that the proofs cite explicitly. */
module Sequences {

  /** Concatenation is associative. */
  lemma AppendAssoc<T>(a: seq<T>, b: seq<T>, c: seq<T>)
    ensures a + (b + c) == (a + b) + c
  {
  }

  /** Past the first part, a concatenation reads the second part. */
  lemma IndexPastHead<T>(h: seq<T>, t: seq<T>, k: int)
    requires |h| <= k < |h| + |t|
    ensures (h + t)[k] == t[k - |h|]
  {
  }

  /** A slice extended by one position gains the element at that position. */
  lemma SliceSnoc<T>(s: seq<T>, i: int, j: int)
    requires 0 <= i <= j < |s|
    ensures s[i..j + 1] == s[i..j] + [s[j]]
  {
  }
}

/** Generic facts about sequences shared by the filter, the tag selection and
    the tag index. */
module Seqs {

  /** `a` is obtained from `b` by deleting zero or more elements, so it keeps
      the relative order of what it retains. */
  predicate IsSubsequence<T(==)>(a: seq<T>, b: seq<T>)
    decreases |b|
  {
    a == [] ||
    (b != [] &&
     ((a[0] == b[0] && IsSubsequence(a[1..], b[1..])) || IsSubsequence(a, b[1..])))
  }

  /** No element occurs twice. */
  predicate NoDups<T(==)>(s: seq<T>)
  {
    forall i, j :: 0 <= i < j < |s| ==> s[i] != s[j]
  }

  /** Every element of a subsequence is an element of the whole, and the
      subsequence is never longer. */
  lemma {:induction false} SubsequenceElements<T>(a: seq<T>, b: seq<T>)
    requires IsSubsequence(a, b)
    ensures |a| <= |b|
    ensures forall x :: x in a ==> x in b
    decreases |b|
  {
    if a == [] {
    } else if a[0] == b[0] && IsSubsequence(a[1..], b[1..]) {
      SubsequenceElements(a[1..], b[1..]);
      forall x | x in a ensures x in b {
        if x != a[0] { assert x in a[1..]; }
      }
    } else {
      SubsequenceElements(a, b[1..]);
    }
  }

  /** Every sequence is a subsequence of itself. */
  lemma {:induction false} SubsequenceRefl<T>(a: seq<T>)
    ensures IsSubsequence(a, a)
  {
    if a != [] { SubsequenceRefl(a[1..]); }
  }

  /** Deleting elements twice is deleting elements once. */
  lemma {:induction false} SubsequenceTrans<T>(a: seq<T>, b: seq<T>, c: seq<T>)
    requires IsSubsequence(a, b) && IsSubsequence(b, c)
    ensures IsSubsequence(a, c)
    decreases |c|
  {
    if a == [] {
    } else if c[0] == b[0] && IsSubsequence(b[1..], c[1..]) {
      if a[0] == b[0] && IsSubsequence(a[1..], b[1..]) {
        SubsequenceTrans(a[1..], b[1..], c[1..]);
      } else {
        SubsequenceTrans(a, b[1..], c[1..]);
      }
    } else {
      SubsequenceTrans(a, b, c[1..]);
    }
  }

  /** Deleting elements cannot create a repetition. */
  lemma {:induction false} SubsequenceNoDups<T>(a: seq<T>, b: seq<T>)
    requires IsSubsequence(a, b) && NoDups(b)
    ensures NoDups(a)
    decreases |b|
  {
    if a == [] {
    } else if a[0] == b[0] && IsSubsequence(a[1..], b[1..]) {
      assert NoDups(b[1..]);
      SubsequenceNoDups(a[1..], b[1..]);
      SubsequenceElements(a[1..], b[1..]);
      forall i, j | 0 <= i < j < |a| ensures a[i] != a[j] {
        if i == 0 {
          assert a[j] in a[1..];
        } else {
          assert a[i] == a[1..][i - 1] && a[j] == a[1..][j - 1];
        }
      }
    } else {
      assert NoDups(b[1..]);
      SubsequenceNoDups(a, b[1..]);
    }
  }
}

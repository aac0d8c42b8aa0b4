/** What several parts say of sequences. */
module Sequences {

  /** No number is in s twice. */
  ghost predicate Distinct(s: seq<int>) {
    forall i, j :: 0 <= i < j < |s| ==> s[i] != s[j]
  }
}

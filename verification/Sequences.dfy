/** Sequences in general. */
module Sequences {
  /** No element occurs twice. */
  ghost predicate Once<T>(s: seq<T>) { forall i, j :: 0 <= i < j < |s| ==> s[i] != s[j] }
}

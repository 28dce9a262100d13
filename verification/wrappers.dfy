/** Shared value types. */
module Wrappers {
  datatype Option<+T> = None | Some(value: T)

  /** No element occurs at two positions. */
  ghost predicate NoDup<T>(s: seq<T>) {
    forall i, j :: 0 <= i < j < |s| ==> s[i] != s[j]
  }
}

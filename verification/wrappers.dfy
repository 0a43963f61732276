/** The stock result types shared by the models. */
module Wrappers {
  datatype Option<+T> = None | Some(value: T)

  /** No two positions of `s` hold the same value. */
  ghost predicate NoDuplicates<T>(s: seq<T>) {
    forall i, j :: 0 <= i < j < |s| ==> s[i] != s[j]
  }
}

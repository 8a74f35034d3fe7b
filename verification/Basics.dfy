/** What several parts of the model share: the machine's pages, optional values, lists without repetition. */
module Basics {

  const PAGE_SIZE := 4096

  /** Physical frames in the machine: 64 MiB. */
  const NUM_PAGES := 16384

  datatype Option<T> = None | Some(value: T)

  predicate Distinct(l: seq<int>) {
    forall i, j :: 0 <= i < j < |l| ==> l[i] != l[j]
  }
}

/** What several components share. */
module Common {
  datatype Option<T> = None | Some(value: T)

  /** Every entry differs from the one before. */
  predicate Alternates(bs: seq<bool>) {
    forall i :: 0 <= i < |bs| - 1 ==> bs[i] != bs[i + 1]
  }
}

/** What several modules share. */
module Commons {

  datatype Option<T> = None | Some(value: T)

  ghost predicate Distinct(s: seq<int>) {
    forall j, k :: 0 <= j < k < |s| ==> s[j] != s[k]
  }
}

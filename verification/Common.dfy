/** What several of the models use. */
module Common {
  datatype Option<T> = None | Some(value: T)

  predicate NoneTwice<T(==)>(s: seq<T>) {
    forall i, j :: 0 <= i < j < |s| ==> s[i] != s[j]
  }
}

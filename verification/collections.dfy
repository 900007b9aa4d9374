/** Facts about sequences used as lists throughout the auction engine. */
module Collections {

  /** True when no element occurs twice in `s`. */
  predicate Distinct<T(==)>(s: seq<T>) {
    forall i, j :: 0 <= i < j < |s| ==> s[i] != s[j]
  }
}

/** Facts about plain sequences shared by the other modules. */
module Sequences {

  /** No element occurs twice. */
  predicate Distinct<X(==)>(s: seq<X>) {
    forall a, b :: 0 <= a < b < |s| ==> s[a] != s[b]
  }
}

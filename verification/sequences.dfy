/** Facts about lists shared by the models. */
module Sequences {
  predicate NoDuplicates(list: seq<nat>) {
    forall j, k :: 0 <= j < k < |list| ==> list[j] != list[k]
  }
}

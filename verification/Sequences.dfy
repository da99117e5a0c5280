/**
 Sequences of addresses.
 */
module Sequences {

  ghost predicate NoRepeats(s: seq<nat>) {
    forall i, j | 0 <= i < j < |s| :: s[i] != s[j]
  }
}

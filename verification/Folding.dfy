/**
 Keeping a definition folded: a predicate written as `forall u {:trigger Key(u)} :: Key(u) ==> P` says just `P`, but a
 proof sees that only after it mentions `Key(true)`.
 */
module Folding {
  predicate Key(u: bool) { true }
}

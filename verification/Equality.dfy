/** Equality as such. Where two sequences or maps are to be equal because they are the same expression,
    comparing them element by element only costs the verifier time. */
module Equality {
  ghost predicate Same<T>(a: T, b: T) {
    a == b
  }
}

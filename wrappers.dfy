/** Small definitions shared by the other modules. */
module Wrappers {

  /** The optional value used for the fields that Python leaves as None. */
  datatype Option<+T> = None | Some(value: T)

  /** `s.startswith(p)`. */
  predicate StartsWith(s: string, p: string) {
    |p| <= |s| && s[..|p|] == p
  }
}

/** Optional values, shared by all modules. */
module Wrappers {

  datatype Option<T> = None | Some(value: T)
}

/** The character classes of the C library, in the C locale. */
module Characters {

  /** isspace. */
  predicate Space(c: char) {
    c == ' ' || '\t' <= c <= '\r'
  }
}

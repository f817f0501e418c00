module Wrappers {

  /** A value that may be absent: a document field that is missing or null,
      or an average taken over nothing. */
  datatype Option<+T> = None | Some(value: T)
}

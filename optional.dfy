/** A value that may be missing: a regex that did not match, a sequence with no such element, a file not found. */
module Optional {

  datatype Option<T> = None | Some(value: T)
}

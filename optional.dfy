/** A value that may be missing: what a Java parser that throws on bad input returns here. */
module Optional {
  datatype Option<+T> = None | Some(value: T)
}

/** A value or none: a pointer that may be null, a run that may be impossible. */
module Options {

  datatype Option<+T> = None | Some(value: T)
}

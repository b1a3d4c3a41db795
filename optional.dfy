/** A value that may be absent: Python's missing dictionary key, JavaScript's
    null or undefined. */
module Optional {

  datatype Option<+T> = None | Some(value: T)
}

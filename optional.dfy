/** A value that may be absent, used for the command's options and the
    result of parsing a date. */
module Optional {

  datatype Option<+T> = None | Some(value: T)
}
